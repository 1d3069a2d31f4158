/**
 * reputationchecker.py: the handler registry, `check_dns_list` (a handler
 * for the special services, a generic DNSBL query for the rest), the
 * category-filtered loop of `main`, `group_results_by_category` and the
 * colour and details choices of `display_results`.
 */
module ReputationChecker {
  import opened PyStr
  import opened Models
  import opened DnsblBase
  import IpUtils
  import Config
  import CinsScore
  import Spamhaus
  import Barracuda
  import SpamCop
  import DroneBL
  import BlocklistDE
  import SpamRATS
  import Hostkarma
  import Mailspike

  // ---------------------------------------------------------------------
  // HANDLERS
  // ---------------------------------------------------------------------

  /** The keys of `HANDLERS`. */
  const HandlerKeys: set<string> :=
    {"spamhaus", "barracuda", "spamcop", "dronebl", "blocklist_de", "cinsscore", "spamrats", "hostkarma", "mailspike"}

  /** The handlers that let a lookup error escape from `check`. */
  const PropagatingKeys: set<string> := {"spamhaus", "barracuda", "spamcop", "blocklist_de", "mailspike"}

  /** The services marked special are exactly the ones `HANDLERS` has a handler for. */
  lemma SpecialServicesHaveHandlers()
    ensures forall i | 0 <= i < |Config.Registry| :: Config.Registry[i].1.special <==> Config.Registry[i].0 in HandlerKeys
  {
  }

  /** `HANDLERS[key].check` on the lookup's record, for every handler but the stateful CINSscore one. */
  function HandlerCheck(key: string, rec: Record): (r: Checked)
    requires key in HandlerKeys && key != "cinsscore"
    ensures r.Raised? <==> key in PropagatingKeys && rec.LookupError?
    ensures r.Raised? ==> r.msg == rec.msg
  {
    if key == "spamhaus" then Spamhaus.Check(rec)
    else if key == "barracuda" then Barracuda.Check(rec)
    else if key == "spamcop" then SpamCop.Check(rec)
    else if key == "dronebl" then DroneBL.Check(rec)
    else if key == "blocklist_de" then BlocklistDE.Check(rec)
    else if key == "spamrats" then SpamRATS.Check(rec)
    else if key == "hostkarma" then Hostkarma.Check(rec)
    else Mailspike.Check(rec)
  }

  // ---------------------------------------------------------------------
  // check_dns_list
  // ---------------------------------------------------------------------

  /**
   * The generic path: the same lookup name as a handler builds, but the
   * resolver's outcome is read directly, and a failure is reported, not raised.
   */
  function GenericCheck(target: string, zone: string, resolve: Resolver): (r: Checked)
    ensures r.Returned?
    ensures var outcome := resolve(LookupName(target, zone));
      && (r.listed <==> outcome.Found?)
      && (outcome.Found? ==> r.details == Tagged("Listed", outcome.first))
      && (outcome == NxDomain ==> r.details == "Not listed")
      && (outcome.Failed? ==> r.details == ErrorPrefix + outcome.msg)
  {
    var lookup := if IpUtils.IsValidIp(target) then IpUtils.ReverseIp(target) + "." + zone else target + "." + zone;
    match resolve(lookup)
    case Found(first, _) => Returned(true, Tagged("Listed", first))
    case NxDomain => Returned(false, "Not listed")
    case Failed(m) => Returned(false, ErrorPrefix + m)
  }

  /**
   * Where the resolver gives a non-empty address or NXDOMAIN, the generic
   * path says what the base handler `check` with empty tables says.
   */
  lemma GenericMatchesBaseCheck(target: string, zone: string, resolve: Resolver)
    requires var outcome := resolve(LookupName(target, zone));
      outcome == NxDomain || (outcome.Found? && outcome.first != "")
    ensures GenericCheck(target, zone, resolve) == DnsblBase.Check(map[], map[], Lookup(resolve, target, zone))
  {
  }

  /** What a handler reports as a resolver failure, the generic path reports as an error result. */
  lemma GenericReportsFailure(target: string, zone: string, resolve: Resolver)
    requires resolve(LookupName(target, zone)).Failed?
    ensures DnsblBase.Check(map[], map[], Lookup(resolve, target, zone)).Raised?
    ensures GenericCheck(target, zone, resolve) == Returned(false, ErrorPrefix + resolve(LookupName(target, zone)).msg)
  {
  }

  /** The message of the `KeyError` that `DNSBL_SERVICES[key]` raises: `str` of a `KeyError` is the key's repr. */
  function KeyErrorMessage(key: string): string {
    Repr(key)
  }

  function StatusText(listed: bool): string {
    if listed then "Listed" else "Not Listed"
  }

  /**
   * The `(is_listed, details)` of one service: its handler when it is
   * special and has one, the generic path otherwise. Only a propagating
   * handler raises, and only when the resolver failed.
   */
  function ServiceCheck(key: string, service: Service, target: string, resolve: Resolver,
                        cache: CinsScore.CacheFile, now: int, fetched: Option<string>): (r: Checked)
    ensures r.Raised? <==> service.special && key in PropagatingKeys && resolve(LookupName(target, service.zone)).Failed?
    ensures r.Raised? ==> r.msg == LookupErrorPrefix + resolve(LookupName(target, service.zone)).msg
  {
    if service.special && key in HandlerKeys then
      if key == "cinsscore" then
        var (listed, details) := CinsScore.CheckSpec(cache, now, fetched, target);
        Returned(listed, details)
      else HandlerCheck(key, Lookup(resolve, target, service.zone))
    else GenericCheck(target, service.zone, resolve)
  }

  /** The CINSscore cache after one service is checked: only the CINSscore handler touches it. */
  function CacheAfterCheck(key: string, service: Service, cache: CinsScore.CacheFile, now: int, fetched: Option<string>): CinsScore.CacheFile {
    if service.special && key == "cinsscore" then CinsScore.CacheAfter(cache, now, fetched) else cache
  }

  /** The CINSscore cache after `check_dns_list(target, key)`. */
  function CacheAfterDnsList(key: string, cache: CinsScore.CacheFile, now: int, fetched: Option<string>): CinsScore.CacheFile {
    match Config.Lookup(key)
    case None => cache
    case Some(service) => CacheAfterCheck(key, service, cache, now, fetched)
  }

  /** What `check_dns_list` returns, or the message of the exception it raises. */
  function CheckDnsListSpec(target: string, key: string, resolve: Resolver,
                            cache: CinsScore.CacheFile, now: int, fetched: Option<string>): (r: Result<DnsblResult>)
    ensures Config.Lookup(key).None? ==> r == Err(KeyErrorMessage(key))
    ensures r.Ok? ==> (Config.Lookup(key).Some? && r.value.listName == key
      && r.value.description == Config.Lookup(key).value.description
      && r.value.category == Config.Lookup(key).value.category
      && (r.value.status == "Listed" || r.value.status == "Not Listed"))
    ensures Config.Lookup(key).Some? ==> (r.Err? <==>
      var service := Config.Lookup(key).value;
      service.special && key in PropagatingKeys && resolve(LookupName(target, service.zone)).Failed?)
    ensures Config.Lookup(key).Some? ==>
      var c := ServiceCheck(key, Config.Lookup(key).value, target, resolve, cache, now, fetched);
      && (r.Ok? <==> c.Returned?)
      && (r.Ok? ==> (r.value.status == "Listed" <==> c.listed) && r.value.details == c.details)
      && (r.Err? ==> r.error == c.msg)
  {
    match Config.Lookup(key)
    case None => Err(KeyErrorMessage(key))
    case Some(service) =>
      match ServiceCheck(key, service, target, resolve, cache, now, fetched)
      case Raised(m) => Err(m)
      case Returned(listed, details) =>
        Ok(DnsblResult(key, service.description, service.category, StatusText(listed), details))
  }

  /** The generic path never raises, whatever the resolver does. */
  lemma GenericServicesNeverRaise(target: string, key: string, resolve: Resolver,
                                  cache: CinsScore.CacheFile, now: int, fetched: Option<string>)
    requires Config.Lookup(key).Some? && !Config.Lookup(key).value.special
    ensures CheckDnsListSpec(target, key, resolve, cache, now, fetched) ==
      var service := Config.Lookup(key).value;
      var c := GenericCheck(target, service.zone, resolve);
      Ok(DnsblResult(key, service.description, service.category, StatusText(c.listed), c.details))
  {
  }

  /** A service marked special has a handler. */
  lemma SpecialKeyHasHandler(key: string)
    requires Config.Lookup(key).Some? && Config.Lookup(key).value.special
    ensures key in HandlerKeys
  {
    var n := Config.KeyIndex(key);
    Config.LookupAt(n);
    SpecialServicesHaveHandlers();
  }

  /**
   * A special service other than CINSscore reports what its handler's
   * `check` says about the lookup, or raises what the handler raises.
   */
  lemma SpecialServicesReportHandler(target: string, key: string, resolve: Resolver,
                                     cache: CinsScore.CacheFile, now: int, fetched: Option<string>)
    requires Config.Lookup(key).Some? && Config.Lookup(key).value.special && key != "cinsscore"
    ensures key in HandlerKeys
    ensures var service := Config.Lookup(key).value;
      var c := HandlerCheck(key, Lookup(resolve, target, service.zone));
      CheckDnsListSpec(target, key, resolve, cache, now, fetched) ==
        if c.Raised? then Err(c.msg)
        else Ok(DnsblResult(key, service.description, service.category, if c.listed then "Listed" else "Not Listed", c.details))
  {
    SpecialKeyHasHandler(key);
  }

  /** The CINSscore service reports what the handler's cached-list check says; it never raises. */
  lemma CinsScoreServiceReportsList(target: string, resolve: Resolver,
                                    cache: CinsScore.CacheFile, now: int, fetched: Option<string>)
    ensures Config.Lookup("cinsscore").Some?
    ensures var service := Config.Lookup("cinsscore").value;
      var cs := CinsScore.CheckSpec(cache, now, fetched, target);
      CheckDnsListSpec(target, "cinsscore", resolve, cache, now, fetched) ==
        Ok(DnsblResult("cinsscore", service.description, service.category, if cs.0 then "Listed" else "Not Listed", cs.1))
  {
    assert Config.Registry[6].0 == "cinsscore";
    Config.LookupAt(6);
    assert Config.Lookup("cinsscore").value.special;
  }

  /** `check_dns_list`: the CINSscore handler may rewrite its cache; nothing else changes. */
  method CheckDnsList(target: string, key: string, resolve: Resolver, cins: CinsScore.CinsScoreHandler,
                      now: int, fetched: Option<string>) returns (r: Result<DnsblResult>)
    modifies cins
    ensures r == CheckDnsListSpec(target, key, resolve, old(cins.cache), now, fetched)
    ensures cins.cache == CacheAfterDnsList(key, old(cins.cache), now, fetched)
  {
    var found := Config.Lookup(key);
    if found.None? {
      return Err(KeyErrorMessage(key));
    }
    var service := found.value;
    var checked: Checked;
    if service.special && key in HandlerKeys {
      if key == "cinsscore" {
        var listed, details := cins.Check(target, now, fetched);
        checked := Returned(listed, details);
      } else {
        checked := HandlerCheck(key, Lookup(resolve, target, service.zone));
      }
    } else {
      checked := GenericCheck(target, service.zone, resolve);
    }
    match checked
    case Raised(m) => r := Err(m);
    case Returned(listed, details) =>
      r := Ok(DnsblResult(key, service.description, service.category, StatusText(listed), details));
  }

  // ---------------------------------------------------------------------
  // The loop of main
  // ---------------------------------------------------------------------

  /** `main`'s filter: no filter, or an empty one, selects every service. */
  predicate Selected(serviceCategory: string, category: Option<string>) {
    category.None? || category.value == "" || serviceCategory == category.value
  }

  /** A check of one service by key: its result and the CINSscore cache after it. */
  type Checker = (string, CinsScore.CacheFile) -> (Result<DnsblResult>, CinsScore.CacheFile)

  /** `check_dns_list` for a fixed target, resolver, clock and download. */
  function DnsListChecker(target: string, resolve: Resolver, now: int, fetched: Option<string>): Checker {
    (key, cache) => (CheckDnsListSpec(target, key, resolve, cache, now, fetched), CacheAfterDnsList(key, cache, now, fetched))
  }

  /** One pass of `main`'s loop: check the service if the filter selects it, keep the result if the check did not raise. */
  function Step(acc: (seq<DnsblResult>, CinsScore.CacheFile), entry: (string, Service), category: Option<string>,
                check: Checker): (seq<DnsblResult>, CinsScore.CacheFile)
  {
    if !Selected(entry.1.category, category) then acc
    else
      var (r, cache) := check(entry.0, acc.1);
      (if r.Ok? then acc.0 + [r.value] else acc.0, cache)
  }

  /** The results and the CINSscore cache after `main` has gone through the first `n` entries. */
  function RunChecks(entries: seq<(string, Service)>, n: nat, category: Option<string>, check: Checker,
                     cache0: CinsScore.CacheFile): (seq<DnsblResult>, CinsScore.CacheFile)
    requires n <= |entries|
  {
    if n == 0 then ([], cache0)
    else Step(RunChecks(entries, n - 1, category, check, cache0), entries[n - 1], category, check)
  }

  /** `check_dns_list`'s pass over one entry, unfolded. */
  lemma DnsListStep(acc: (seq<DnsblResult>, CinsScore.CacheFile), entry: (string, Service), category: Option<string>,
                    target: string, resolve: Resolver, now: int, fetched: Option<string>)
    requires Selected(entry.1.category, category)
    ensures var r := CheckDnsListSpec(target, entry.0, resolve, acc.1, now, fetched);
      Step(acc, entry, category, DnsListChecker(target, resolve, now, fetched)) ==
        (if r.Ok? then acc.0 + [r.value] else acc.0, CacheAfterDnsList(entry.0, acc.1, now, fetched))
  {
  }

  /** One pass of `main`'s loop, on the handler's state. */
  method CheckEntry(results: seq<DnsblResult>, entry: (string, Service), target: string, category: Option<string>,
                    resolve: Resolver, cins: CinsScore.CinsScoreHandler, now: int, fetched: Option<string>)
    returns (results': seq<DnsblResult>)
    modifies cins
    ensures (results', cins.cache) == Step((results, old(cins.cache)), entry, category, DnsListChecker(target, resolve, now, fetched))
  {
    results' := results;
    if Selected(entry.1.category, category) {
      DnsListStep((results, cins.cache), entry, category, target, resolve, now, fetched);
      var r := CheckDnsList(target, entry.0, resolve, cins, now, fetched);
      if r.Ok? {
        results' := results + [r.value];
      }
    }
  }

  /** The loop of `main` over the entries of the registry. */
  method CheckEntries(entries: seq<(string, Service)>, target: string, category: Option<string>, resolve: Resolver,
                      cins: CinsScore.CinsScoreHandler, now: int, fetched: Option<string>) returns (results: seq<DnsblResult>)
    modifies cins
    ensures (results, cins.cache) ==
      RunChecks(entries, |entries|, category, DnsListChecker(target, resolve, now, fetched), old(cins.cache))
  {
    results := [];
    for i := 0 to |entries|
      invariant (results, cins.cache) ==
        RunChecks(entries, i, category, DnsListChecker(target, resolve, now, fetched), old(cins.cache))
    {
      results := CheckEntry(results, entries[i], target, category, resolve, cins, now, fetched);
    }
  }

  /**
   * `main` after option parsing: validate the target, then check every
   * selected service in registry order, keeping the results of the checks
   * that did not raise.
   */
  method CheckTarget(target: string, category: Option<string>, resolve: Resolver, cins: CinsScore.CinsScoreHandler,
                     now: int, fetched: Option<string>) returns (valid: bool, message: string, results: seq<DnsblResult>)
    modifies cins
    ensures (valid, message) == IpUtils.ValidateTarget(target)
    ensures !valid ==> results == [] && cins.cache == old(cins.cache)
    ensures valid ==> ((results, cins.cache) ==
      RunChecks(Config.Registry, |Config.Registry|, category, DnsListChecker(target, resolve, now, fetched), old(cins.cache)))
  {
    var v := IpUtils.ValidateTarget(target);
    valid, message := v.0, v.1;
    results := [];
    if valid {
      results := CheckEntries(Config.Registry, target, category, resolve, cins, now, fetched);
    }
  }

  /** Each entry's key is filed once. */
  predicate DistinctKeys(entries: seq<(string, Service)>) {
    forall i | 0 <= i < |entries| :: Config.FindIndex(entries, entries[i].0) == i
  }

  /** A result of the check of an entry's key names that entry and carries its category. */
  ghost predicate Labels(check: Checker, entries: seq<(string, Service)>) {
    forall i, cache | 0 <= i < |entries| :: check(entries[i].0, cache).0.Ok? ==>
      check(entries[i].0, cache).0.value.listName == entries[i].0 && check(entries[i].0, cache).0.value.category == entries[i].1.category
  }

  /** The result comes from one of the first `n` entries, one the filter selects, and has its category. */
  predicate FromSelected(r: DnsblResult, entries: seq<(string, Service)>, n: nat, category: Option<string>) {
    var k := Config.FindIndex(entries, r.listName);
    k < n && k < |entries| && Selected(entries[k].1.category, category) && r.category == entries[k].1.category
  }

  /** Results in strictly increasing entry position. */
  predicate InEntryOrder(rs: seq<DnsblResult>, entries: seq<(string, Service)>) {
    forall a, b | 0 <= a < b < |rs| :: Config.FindIndex(entries, rs[a].listName) < Config.FindIndex(entries, rs[b].listName)
  }

  /** A pass over entry `i` adds nothing, or one result from that entry. */
  lemma StepAddsAtMostOne(acc: (seq<DnsblResult>, CinsScore.CacheFile), entries: seq<(string, Service)>, i: nat,
                          category: Option<string>, check: Checker)
    requires i < |entries| && DistinctKeys(entries) && Labels(check, entries)
    ensures var rs := Step(acc, entries[i], category, check).0;
      rs == acc.0 || (|rs| == |acc.0| + 1 && rs == acc.0 + [rs[|acc.0|]]
                      && Config.FindIndex(entries, rs[|acc.0|].listName) == i && FromSelected(rs[|acc.0|], entries, i + 1, category))
  {
    assert Config.FindIndex(entries, entries[i].0) == i;
    var r := check(entries[i].0, acc.1).0;
    assert r.Ok? ==> r.value.listName == entries[i].0 && r.value.category == entries[i].1.category;
  }

  /** Appending a result of entry `n - 1` keeps the order facts. */
  lemma AppendKeepsOrder(prev: seq<DnsblResult>, x: DnsblResult, entries: seq<(string, Service)>, n: nat, category: Option<string>)
    requires 0 < n <= |entries|
    requires forall a | 0 <= a < |prev| :: FromSelected(prev[a], entries, n - 1, category)
    requires InEntryOrder(prev, entries)
    requires Config.FindIndex(entries, x.listName) == n - 1 && FromSelected(x, entries, n, category)
    ensures forall a | 0 <= a < |prev + [x]| :: FromSelected((prev + [x])[a], entries, n, category)
    ensures InEntryOrder(prev + [x], entries)
  {
    var rs := prev + [x];
    forall a | 0 <= a < |rs| ensures FromSelected(rs[a], entries, n, category) {
      if a < |prev| {
        assert rs[a] == prev[a] && FromSelected(prev[a], entries, n - 1, category);
      }
    }
    forall a, b | 0 <= a < b < |rs|
      ensures Config.FindIndex(entries, rs[a].listName) < Config.FindIndex(entries, rs[b].listName)
    {
      assert rs[a] == prev[a] && FromSelected(prev[a], entries, n - 1, category);
    }
  }

  /**
   * The results come at most one per entry, in entry order, each from an
   * entry the filter selects and carrying that entry's category.
   */
  lemma {:induction false} RunChecksOrder(entries: seq<(string, Service)>, n: nat, category: Option<string>, check: Checker,
                                          cache0: CinsScore.CacheFile)
    requires n <= |entries| && DistinctKeys(entries) && Labels(check, entries)
    ensures var rs := RunChecks(entries, n, category, check, cache0).0;
      && |rs| <= n
      && (forall a | 0 <= a < |rs| :: FromSelected(rs[a], entries, n, category))
      && InEntryOrder(rs, entries)
  {
    if n > 0 {
      RunChecksOrder(entries, n - 1, category, check, cache0);
      var acc := RunChecks(entries, n - 1, category, check, cache0);
      StepAddsAtMostOne(acc, entries, n - 1, category, check);
      var rs := Step(acc, entries[n - 1], category, check).0;
      if rs != acc.0 {
        AppendKeepsOrder(acc.0, rs[|acc.0|], entries, n, category);
      }
    }
  }

  /** The number of entries among the first `n` that the filter selects. */
  function SelectedCount(entries: seq<(string, Service)>, n: nat, category: Option<string>): (k: nat)
    requires n <= |entries|
    ensures k <= n
    ensures category.None? ==> k == n
  {
    if n == 0 then 0
    else SelectedCount(entries, n - 1, category) + if Selected(entries[n - 1].1.category, category) then 1 else 0
  }

  /** When no check of a selected entry raises, none is dropped: each selected entry gives one result. */
  lemma {:induction false} NoRaiseNoDrop(entries: seq<(string, Service)>, n: nat, category: Option<string>, check: Checker,
                                         cache0: CinsScore.CacheFile)
    requires n <= |entries|
    requires forall i, cache | 0 <= i < |entries| && Selected(entries[i].1.category, category) :: check(entries[i].0, cache).0.Ok?
    ensures |RunChecks(entries, n, category, check, cache0).0| == SelectedCount(entries, n, category)
  {
    if n > 0 {
      NoRaiseNoDrop(entries, n - 1, category, check, cache0);
      var acc := RunChecks(entries, n - 1, category, check, cache0);
      if Selected(entries[n - 1].1.category, category) {
        assert check(entries[n - 1].0, acc.1).0.Ok?;
      }
    }
  }

  /** Some result names the service filed under `key`. */
  predicate Reports(rs: seq<DnsblResult>, key: string) {
    exists a | 0 <= a < |rs| :: rs[a].listName == key
  }

  /**
   * A selected entry whose check cannot raise is reported, whatever the
   * other entries' checks do: an exception drops only its own service.
   */
  lemma {:induction false} SelectedReported(entries: seq<(string, Service)>, n: nat, i: nat, category: Option<string>,
                                            check: Checker, cache0: CinsScore.CacheFile)
    requires i < n <= |entries| && Labels(check, entries)
    requires Selected(entries[i].1.category, category)
    requires forall cache :: check(entries[i].0, cache).0.Ok?
    ensures Reports(RunChecks(entries, n, category, check, cache0).0, entries[i].0)
  {
    var acc := RunChecks(entries, n - 1, category, check, cache0);
    var rs := RunChecks(entries, n, category, check, cache0).0;
    if i == n - 1 {
      var r := check(entries[i].0, acc.1).0;
      assert r.Ok?;
      assert r.value.listName == entries[i].0;
      assert rs == acc.0 + [r.value];
      assert rs[|acc.0|] == r.value;
      assert |acc.0| < |rs| && rs[|acc.0|].listName == entries[i].0;
    } else {
      assert rs == acc.0 || rs == acc.0 + [check(entries[n - 1].0, acc.1).0.value];
      SelectedReported(entries, n - 1, i, category, check, cache0);
      assert Reports(acc.0, entries[i].0);
      var a :| 0 <= a < |acc.0| && acc.0[a].listName == entries[i].0;
      assert a < |rs| && rs[a] == acc.0[a];
      assert rs[a].listName == entries[i].0;
    }
  }

  /** With a non-empty category filter, every result is of that category. */
  lemma FilterKeepsCategory(entries: seq<(string, Service)>, n: nat, category: Option<string>, check: Checker,
                            cache0: CinsScore.CacheFile)
    requires n <= |entries| && DistinctKeys(entries) && Labels(check, entries)
    requires category.Some? && category.value != ""
    ensures forall r | r in RunChecks(entries, n, category, check, cache0).0 :: r.category == category.value
  {
    RunChecksOrder(entries, n, category, check, cache0);
    var rs := RunChecks(entries, n, category, check, cache0).0;
    forall r | r in rs ensures r.category == category.value {
      var a :| 0 <= a < |rs| && rs[a] == r;
      assert FromSelected(rs[a], entries, n, category);
    }
  }

  lemma RegistryKeysDistinct()
    ensures DistinctKeys(Config.Registry)
  {
    forall i | 0 <= i < |Config.Registry| ensures Config.FindIndex(Config.Registry, Config.Registry[i].0) == i {
      Config.KeyIndexAt(i);
    }
  }

  /** `check_dns_list` labels each result with the service it checked. */
  lemma DnsListCheckerLabels(target: string, resolve: Resolver, now: int, fetched: Option<string>)
    ensures Labels(DnsListChecker(target, resolve, now, fetched), Config.Registry)
  {
    var check := DnsListChecker(target, resolve, now, fetched);
    forall i, cache | 0 <= i < |Config.Registry| && check(Config.Registry[i].0, cache).0.Ok?
      ensures check(Config.Registry[i].0, cache).0.value.listName == Config.Registry[i].0
      ensures check(Config.Registry[i].0, cache).0.value.category == Config.Registry[i].1.category
    {
      Config.LookupAt(i);
    }
  }

  /** What `main` collects: at most one result per service, in the order of `DNSBL_SERVICES`. */
  lemma ResultsFollowRegistry(target: string, category: Option<string>, resolve: Resolver,
                              cache0: CinsScore.CacheFile, now: int, fetched: Option<string>)
    ensures var rs := RunChecks(Config.Registry, |Config.Registry|, category, DnsListChecker(target, resolve, now, fetched), cache0).0;
      |rs| <= |Config.Registry| && InEntryOrder(rs, Config.Registry)
  {
    var check := DnsListChecker(target, resolve, now, fetched);
    RegistryKeysDistinct();
    DnsListCheckerLabels(target, resolve, now, fetched);
    RunChecksOrder(Config.Registry, |Config.Registry|, category, check, cache0);
  }

  /** With a non-empty `--category`, `main` reports only services of that category. */
  lemma CategoryFilterHolds(target: string, c: string, resolve: Resolver,
                            cache0: CinsScore.CacheFile, now: int, fetched: Option<string>)
    requires c != ""
    ensures forall r | r in RunChecks(Config.Registry, |Config.Registry|, Some(c), DnsListChecker(target, resolve, now, fetched), cache0).0 ::
      r.category == c
  {
    RegistryKeysDistinct();
    DnsListCheckerLabels(target, resolve, now, fetched);
    FilterKeepsCategory(Config.Registry, |Config.Registry|, Some(c), DnsListChecker(target, resolve, now, fetched), cache0);
  }

  /** A service whose check cannot raise: its lookup is answered, or it is not a propagating special service. */
  predicate NeverRaises(service: Service, key: string, target: string, resolve: Resolver) {
    !(service.special && key in PropagatingKeys && resolve(LookupName(target, service.zone)).Failed?)
  }

  /**
   * `main` reports every service the filter selects and whose check does not
   * raise, even when other services' checks raise.
   */
  lemma EverySelectedServiceReported(target: string, category: Option<string>, resolve: Resolver,
                                     cache0: CinsScore.CacheFile, now: int, fetched: Option<string>)
    ensures forall i | 0 <= i < |Config.Registry| && Selected(Config.Registry[i].1.category, category)
                       && NeverRaises(Config.Registry[i].1, Config.Registry[i].0, target, resolve) ::
      Reports(RunChecks(Config.Registry, |Config.Registry|, category, DnsListChecker(target, resolve, now, fetched), cache0).0,
              Config.Registry[i].0)
  {
    var check := DnsListChecker(target, resolve, now, fetched);
    DnsListCheckerLabels(target, resolve, now, fetched);
    forall i | 0 <= i < |Config.Registry| && Selected(Config.Registry[i].1.category, category)
               && NeverRaises(Config.Registry[i].1, Config.Registry[i].0, target, resolve)
      ensures Reports(RunChecks(Config.Registry, |Config.Registry|, category, check, cache0).0, Config.Registry[i].0)
    {
      Config.LookupAt(i);
      forall cache ensures check(Config.Registry[i].0, cache).0.Ok? {
      }
      SelectedReported(Config.Registry, |Config.Registry|, i, category, check, cache0);
    }
  }

  /** Without resolver failures, `main` reports exactly one result per service the filter selects. */
  lemma SelectedServicesCounted(target: string, category: Option<string>, resolve: Resolver,
                                cache0: CinsScore.CacheFile, now: int, fetched: Option<string>)
    requires forall name :: !resolve(name).Failed?
    ensures |RunChecks(Config.Registry, |Config.Registry|, category, DnsListChecker(target, resolve, now, fetched), cache0).0|
      == SelectedCount(Config.Registry, |Config.Registry|, category)
  {
    var check := DnsListChecker(target, resolve, now, fetched);
    forall i, cache | 0 <= i < |Config.Registry| && Selected(Config.Registry[i].1.category, category)
      ensures check(Config.Registry[i].0, cache).0.Ok?
    {
      Config.LookupAt(i);
    }
    NoRaiseNoDrop(Config.Registry, |Config.Registry|, category, check, cache0);
  }

  /** Without a filter and without resolver failures, `main` reports on all 17 services. */
  lemma EveryServiceReported(target: string, resolve: Resolver, cache0: CinsScore.CacheFile, now: int, fetched: Option<string>)
    requires forall name :: !resolve(name).Failed?
    ensures |RunChecks(Config.Registry, |Config.Registry|, None, DnsListChecker(target, resolve, now, fetched), cache0).0| == 17
  {
    var check := DnsListChecker(target, resolve, now, fetched);
    forall i, cache | 0 <= i < |Config.Registry| ensures check(Config.Registry[i].0, cache).0.Ok? {
      Config.LookupAt(i);
    }
    NoRaiseNoDrop(Config.Registry, |Config.Registry|, None, check, cache0);
  }
}
