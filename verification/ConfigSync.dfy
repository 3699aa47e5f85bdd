/** How agents pick up configuration: selection, one sync, and the server's change watch. */
module ConfigSync {
  import opened Text
  import opened Sorting
  import opened Network
  import opened Policy
  import opened Store
  import opened StoreDurability

  // ---- selection ----

  function Targets(target: string): Bundle -> bool { (b: Bundle) => b.targetID == target }

  /** The newcomer replaces the selected bundle if it is newer or has a greater version text. */
  predicate Replaces(b: Bundle, selected: Option<Bundle>) {
    selected.None? || b.createdAt > selected.value.createdAt || StrLess(selected.value.version, b.version)
  }

  function Select(configs: seq<Bundle>, target: string): Option<Bundle> {
    if configs == [] then None
    else
      var selected, b := Select(configs[..|configs| - 1], target), configs[|configs| - 1];
      if Targets(target)(b) && Replaces(b, selected) then Some(b) else selected
  }

  /** `selectConfig` in the agent, `selectTargetConfig` in the server. */
  method SelectConfig(configs: seq<Bundle>, target: string) returns (selected: Option<Bundle>)
    ensures selected == Select(configs, target)
    ensures selected.None? <==> forall b :: b in configs ==> b.targetID != target
    ensures selected.Some? ==> selected.value in configs && selected.value.targetID == target
  {
    hide Replaces;
    selected := None;
    for k := 0 to |configs|
      invariant selected == Select(configs[..k], target)
    {
      assert configs[..k + 1][..k] == configs[..k];
      if configs[k].targetID == target && Replaces(configs[k], selected) { selected := Some(configs[k]); }
    }
    assert configs[..|configs|] == configs;
    SelectIsTargeted(configs, target);
  }

  lemma {:induction false} SelectIsTargeted(configs: seq<Bundle>, target: string)
    ensures Select(configs, target).None? <==> forall b :: b in configs ==> b.targetID != target
    ensures Select(configs, target).Some? ==>
              Select(configs, target).value in configs && Select(configs, target).value.targetID == target
  {
    if configs != [] {
      SelectIsTargeted(configs[..|configs| - 1], target);
      assert configs == configs[..|configs| - 1] + [configs[|configs| - 1]];
    }
  }

  // ---- when the order of the list matters ----

  predicate Newer(a: Bundle, b: Bundle) { a.createdAt > b.createdAt }
  predicate Higher(a: Bundle, b: Bundle) { StrLess(b.version, a.version) }

  ghost predicate Newest(configs: seq<Bundle>, target: string, b: Bundle) { Least(configs, Newer, Targets(target), b) }
  ghost predicate Highest(configs: seq<Bundle>, target: string, b: Bundle) {
    Least(configs, Higher, Targets(target), b)
  }

  /** The newest bundle of the target also has its greatest version. */
  ghost predicate Dominant(configs: seq<Bundle>, target: string, b: Bundle) {
    Newest(configs, target, b) && Highest(configs, target, b)
  }

  predicate SameRank(a: Option<Bundle>, b: Option<Bundle>) {
    a.Some? == b.Some? && (a.Some? ==> a.value.createdAt == b.value.createdAt && a.value.version == b.value.version)
  }

  lemma BundleOrders()
    ensures StrictWeakOrder(Newer) && StrictWeakOrder(Higher)
  {
    hide StrLess;
    StrOrder();
  }

  /** While `best` is unbeaten in the list, it or an equal is selected from the moment it is met. */
  lemma {:induction false} UnbeatenIsSelected(configs: seq<Bundle>, target: string, best: Bundle)
    requires best in configs && best.targetID == target
    requires forall b :: b in configs && b.targetID == target ==>
               b.createdAt <= best.createdAt && !StrLess(best.version, b.version)
    ensures SameRank(Select(configs, target), Some(best))
  {
    hide StrLess;
    StrOrder();
    var init, last := configs[..|configs| - 1], configs[|configs| - 1];
    assert configs == init + [last];
    SelectIsTargeted(init, target);
    if best in init {
      UnbeatenIsSelected(init, target, best);
      assert last in configs;
    } else {
      assert last == best;
      if Select(init, target).Some? { assert Select(init, target).value in configs; }
    }
  }

  /** A bundle nobody outdates, put last, leaves a selection of its own creation time. */
  lemma NewestLast(configs: seq<Bundle>, target: string, b: Bundle)
    requires Newest(configs + [b], target, b)
    ensures Select(configs + [b], target).Some? && Newest(configs + [b], target, Select(configs + [b], target).value)
  {
    LastStep(configs, b, target);
    SelectIsTargeted(configs, target);
    SelectIsTargeted(configs + [b], target);
  }

  lemma HighestLast(configs: seq<Bundle>, target: string, b: Bundle)
    requires Highest(configs + [b], target, b)
    ensures Select(configs + [b], target).Some? && Highest(configs + [b], target, Select(configs + [b], target).value)
  {
    hide StrLess;
    StrOrder();
    LastStep(configs, b, target);
    SelectIsTargeted(configs, target);
    SelectIsTargeted(configs + [b], target);
  }

  lemma LastStep(configs: seq<Bundle>, b: Bundle, target: string)
    ensures Select(configs + [b], target) ==
            if b.targetID == target && Replaces(b, Select(configs, target)) then Some(b) else Select(configs, target)
  {
    assert (configs + [b])[..|configs|] == configs;
  }

  /** The same bundles with `b` moved to the end. */
  lemma MovedLast(configs: seq<Bundle>, b: Bundle) returns (rest: seq<Bundle>)
    requires b in configs
    ensures multiset(rest + [b]) == multiset(configs)
  {
    var i :| 0 <= i < |configs| && configs[i] == b;
    rest := configs[..i] + configs[i + 1..];
    assert configs == configs[..i] + [b] + configs[i + 1..];
  }

  lemma LeastKept<T>(s: seq<T>, t: seq<T>, less: (T, T) -> bool, p: T -> bool, x: T)
    requires multiset(s) == multiset(t)
    ensures Least(s, less, p, x) <==> Least(t, less, p, x)
  {
    SameMembers(s, t);
  }

  lemma DominantWins(configs: seq<Bundle>, shuffled: seq<Bundle>, target: string, best: Bundle)
    requires multiset(shuffled) == multiset(configs) && Dominant(configs, target, best)
    ensures SameRank(Select(shuffled, target), Some(best))
  {
    hide StrLess;
    SameMembers(shuffled, configs);
    UnbeatenIsSelected(shuffled, target, best);
  }

  /** Without a dominant bundle two orders of the same list select differently. */
  lemma TwoOrdersDiffer(configs: seq<Bundle>, target: string)
    returns (newestLast: seq<Bundle>, highestLast: seq<Bundle>)
    requires Select(configs, target).Some? && forall b :: !Dominant(configs, target, b)
    ensures multiset(newestLast) == multiset(configs) && multiset(highestLast) == multiset(configs)
    ensures !SameRank(Select(newestLast, target), Select(highestLast, target))
  {
    hide StrLess, Select;
    SelectIsTargeted(configs, target);
    BundleOrders();
    BestSatIsLeast(configs, Newer, Targets(target));
    BestSatIsLeast(configs, Higher, Targets(target));
    var a, b := BestSat(configs, Newer, Targets(target)).value, BestSat(configs, Higher, Targets(target)).value;
    var restA := MovedLast(configs, a);
    var restB := MovedLast(configs, b);
    newestLast, highestLast := restA + [a], restB + [b];
    LeastKept(configs, newestLast, Newer, Targets(target), a);
    LeastKept(configs, highestLast, Higher, Targets(target), b);
    NewestLast(restA, target, a);
    HighestLast(restB, target, b);
    var x, y := Select(newestLast, target).value, Select(highestLast, target).value;
    LeastKept(configs, newestLast, Newer, Targets(target), x);
    LeastKept(configs, highestLast, Higher, Targets(target), y);
    assert !Dominant(configs, target, x);
    assert x.version == y.version ==> Highest(configs, target, x);
  }

  /** The selected creation time and version are the same in every order of the list exactly when one
      bundle of the target is both the newest and the one with the greatest version, and it is that one's. */
  lemma SelectedRankIgnoresOrderIff(configs: seq<Bundle>, target: string)
    requires Select(configs, target).Some?
    ensures (forall shuffled :: multiset(shuffled) == multiset(configs) ==>
              SameRank(Select(shuffled, target), Select(configs, target)))
            <==> exists b :: Dominant(configs, target, b)
    ensures forall b, shuffled :: Dominant(configs, target, b) && multiset(shuffled) == multiset(configs) ==>
              SameRank(Select(shuffled, target), Some(b))
  {
    hide Select, Dominant;
    forall b, shuffled | Dominant(configs, target, b) && multiset(shuffled) == multiset(configs)
      ensures SameRank(Select(shuffled, target), Some(b))
    {
      DominantWins(configs, shuffled, target, b);
    }
    if exists b :: Dominant(configs, target, b) {
      var b :| Dominant(configs, target, b);
      assert SameRank(Select(configs, target), Some(b));
    } else {
      var p, q := TwoOrdersDiffer(configs, target);
      assert !(SameRank(Select(p, target), Select(configs, target))
             && SameRank(Select(q, target), Select(configs, target)));
    }
  }

  /** `b` is dominant and nothing else is. */
  ghost predicate OnlyDominant(configs: seq<Bundle>, target: string, b: Bundle) {
    Dominant(configs, target, b) && forall other :: Dominant(configs, target, other) ==> other == b
  }

  /** Whatever is selected with a dominant bundle's rank is dominant itself. */
  lemma SelectedIsDominant(configs: seq<Bundle>, shuffled: seq<Bundle>, target: string, b: Bundle)
    requires multiset(shuffled) == multiset(configs) && Dominant(configs, target, b)
    ensures Select(shuffled, target).Some? && Dominant(configs, target, Select(shuffled, target).value)
  {
    hide StrLess, Select;
    DominantWins(configs, shuffled, target, b);
    SelectIsTargeted(shuffled, target);
    SameMembers(shuffled, configs);
  }

  /** A dominant bundle that comes first stays selected. */
  lemma {:induction false} FirstDominantStays(rest: seq<Bundle>, target: string, b: Bundle)
    requires Dominant([b] + rest, target, b)
    ensures Select([b] + rest, target) == Some(b)
  {
    hide StrLess;
    if rest == [] {
      LastStep([], b, target);
      assert [] + [b] == [b] + rest;
    } else {
      var init, last := rest[..|rest| - 1], rest[|rest| - 1];
      assert [b] + rest == ([b] + init) + [last] && last in [b] + rest;
      assert forall x :: x in [b] + init ==> x in [b] + rest;
      assert b in [b] + init;
      FirstDominantStays(init, target, b);
      LastStep([b] + init, last, target);
    }
  }

  /** The same bundles with `b` moved to the front. */
  lemma MovedFirst(configs: seq<Bundle>, b: Bundle) returns (rest: seq<Bundle>)
    requires b in configs
    ensures multiset([b] + rest) == multiset(configs)
  {
    rest := MovedLast(configs, b);
    assert multiset([b] + rest) == multiset(rest + [b]);
  }

  lemma DominantFirst(configs: seq<Bundle>, target: string, b: Bundle) returns (front: seq<Bundle>)
    requires Dominant(configs, target, b)
    ensures multiset(front) == multiset(configs) && Select(front, target) == Some(b)
  {
    hide StrLess, Select;
    var rest := MovedFirst(configs, b);
    front := [b] + rest;
    SameMembers(front, configs);
    FirstDominantStays(rest, target, b);
  }

  /** The same bundle is selected in every order of the list exactly when a single bundle of the target is
      both the newest and the one with the greatest version, and it is that one. */
  lemma SelectionIgnoresOrderIff(configs: seq<Bundle>, target: string)
    requires Select(configs, target).Some?
    ensures (forall shuffled :: multiset(shuffled) == multiset(configs) ==>
              Select(shuffled, target) == Select(configs, target))
            <==> exists b :: OnlyDominant(configs, target, b)
    ensures forall b, shuffled :: OnlyDominant(configs, target, b) && multiset(shuffled) == multiset(configs) ==>
              Select(shuffled, target) == Some(b)
  {
    hide Select, Dominant;
    forall b, shuffled | OnlyDominant(configs, target, b) && multiset(shuffled) == multiset(configs)
      ensures Select(shuffled, target) == Some(b)
    {
      SelectedIsDominant(configs, shuffled, target, b);
    }
    if b :| OnlyDominant(configs, target, b) {
      assert Select(configs, target) == Some(b);
    } else if b :| Dominant(configs, target, b) {
      assert !OnlyDominant(configs, target, b);
      var other :| Dominant(configs, target, other) && other != b;
      var p := DominantFirst(configs, target, b);
      var q := DominantFirst(configs, target, other);
      assert !(Select(p, target) == Select(configs, target) && Select(q, target) == Select(configs, target));
    } else {
      var p, q := TwoOrdersDiffer(configs, target);
      assert !(Select(p, target) == Select(configs, target) && Select(q, target) == Select(configs, target));
    }
  }

  /** A newer bundle of the target never has a smaller version. */
  ghost predicate OrdersAgree(configs: seq<Bundle>, target: string) {
    forall a, b :: a in configs && b in configs && a.targetID == b.targetID == target && a.createdAt < b.createdAt ==>
      !StrLess(b.version, a.version)
  }

  predicate NewerThenHigher(a: Bundle, b: Bundle) {
    a.createdAt > b.createdAt || (a.createdAt == b.createdAt && StrLess(b.version, a.version))
  }

  lemma AgreeingOrdersHaveMaximum(configs: seq<Bundle>, target: string)
    requires Select(configs, target).Some? && OrdersAgree(configs, target)
    ensures exists b :: Dominant(configs, target, b)
  {
    hide StrLess, Select;
    StrOrder();
    SelectIsTargeted(configs, target);
    assert StrictWeakOrder(NewerThenHigher);
    BestSatIsLeast(configs, NewerThenHigher, Targets(target));
    var b := BestSat(configs, NewerThenHigher, Targets(target)).value;
    assert Newest(configs, target, b);
    assert Highest(configs, target, b);
    assert Dominant(configs, target, b);
  }

  /** Versions are compared as text: after releasing "9" and then "10" the order of the list decides. */
  lemma VersionTextMisleads(nine: Bundle, ten: Bundle)
    requires nine.version == "9" && ten.version == "10" && nine.targetID == ten.targetID
             && nine.createdAt < ten.createdAt
    ensures Select([nine, ten], nine.targetID) == Some(ten) && Select([ten, nine], nine.targetID) == Some(nine)
  {
    var t, none, one, other := nine.targetID, [], [nine], [ten];
    assert none + [nine] == one && none + [ten] == other && one + [ten] == [nine, ten] && other + [nine] == [ten, nine];
    LastStep(none, nine, t);
    LastStep(none, ten, t);
    LastStep(one, ten, t);
    LastStep(other, nine, t);
    assert StrLess(ten.version, nine.version) by { assert ten.version[0] == '1' && nine.version[0] == '9'; }
    assert Replaces(ten, Some(nine)) && Replaces(nine, Some(ten));
  }

  // ---- the agent ----

  class Agent {
    const tenantID: string
    const deviceID: string
    const net: Net
    const cached: bool
    var version: string
    var snapshotVersion: string
    var cache: Option<Bundle>

    ghost predicate Valid()
      reads this
    {
      snapshotVersion == version
    }

    constructor (net: Net, tenantID: string, deviceID: string, version: string, cached: bool)
      ensures Valid() && this.net == net && this.tenantID == tenantID && this.deviceID == deviceID
              && this.version == version && this.cached == cached
    {
      this.net, this.tenantID, this.deviceID, this.cached := net, tenantID, deviceID, cached;
      this.version, snapshotVersion, cache := version, version, None;
    }

    method ApplyConfig(b: Bundle, cacheWritable: bool) returns (ok: bool)
      requires Valid()
      modifies this
      ensures Valid()
      ensures ok == CanApply(net, tenantID, deviceID, b, cached ==> cacheWritable)
      ensures version == if ok then b.version else old(version)
      ensures cache == if ok && cached then Some(b) else old(cache)
    {
      if !ValidBundle(net, b) { return false; }
      if b.tenantID != tenantID || b.targetID != deviceID { return false; }
      if cached {
        if !cacheWritable { return false; }
        cache := Some(b);
      }
      version := b.version;
      snapshotVersion := b.version;
      return true;
    }

    /** `SyncOnce`: `fetched` is the server's list, None when the request fails. */
    method SyncOnce(fetched: Option<seq<Bundle>>, cacheWritable: bool, pushed: bool) returns (ok: bool)
      requires Valid()
      modifies this
      ensures Valid()
      ensures var taken := fetched.Some? && Takes(net, tenantID, deviceID, fetched.value, cached ==> cacheWritable);
              && (ok <==> taken && pushed)
              && version == if taken then Synced(old(version), fetched.value, deviceID) else old(version)
    {
      hide Select;
      if fetched.None? { return false; }
      var selected := SelectConfig(fetched.value, deviceID);
      if selected.Some? {
        var applied := ApplyConfig(selected.value, cacheWritable);
        if !applied { return false; }
      }
      return pushed;
    }
  }

  /** The bundle is valid, meant for this device, and can be cached where a cache is configured. */
  predicate CanApply(net: Net, tenantID: string, deviceID: string, b: Bundle, cacheOk: bool) {
    ValidBundle(net, b) && b.tenantID == tenantID && b.targetID == deviceID && cacheOk
  }

  /** Whether the selected bundle, if there is one, is applied. */
  predicate Takes(net: Net, tenantID: string, deviceID: string, configs: seq<Bundle>, cacheOk: bool) {
    match Select(configs, deviceID)
    case None => true
    case Some(b) => CanApply(net, tenantID, deviceID, b, cacheOk)
  }

  /** The version an agent has after a successful sync. */
  function Synced(version: string, configs: seq<Bundle>, deviceID: string): string {
    match Select(configs, deviceID) case None => version case Some(b) => b.version
  }

  ghost predicate Applicable(net: Net, tenantID: string, configs: seq<Bundle>, deviceID: string) {
    forall b :: b in configs && b.targetID == deviceID ==> ValidBundle(net, b) && b.tenantID == tenantID
  }

  /** A device takes a bundle of its own tenant and id only, and only one with all four names. */
  lemma OnlyOwnBundles(net: Net, tenantID: string, deviceID: string, configs: seq<Bundle>, b: Bundle)
    ensures CanApply(net, tenantID, deviceID, b, true) <==>
            && b.tenantID == tenantID && b.targetID == deviceID
            && forall name :: name in [b.id, b.tenantID, b.targetID, b.version] ==> net.trim(name) != ""
    ensures CanApply(net, tenantID, deviceID, b, false) == false
    ensures Takes(net, tenantID, deviceID, configs, true) && Select(configs, deviceID).Some? ==>
              Select(configs, deviceID).value.tenantID == tenantID
  {
    hide Select;
    var names := [b.id, b.tenantID, b.targetID, b.version];
    assert names[0] in names && names[1] in names && names[2] in names && names[3] in names;
  }

  // ---- the server's watch ----

  /** `changedConfig` on the store's list. */
  function Changed(configs: seq<Bundle>, target: string, since: string): Option<Bundle> {
    match Select(configs, target)
    case None => None
    case Some(b) => if since != "" && b.version == since then None else Some(b)
  }

  /** A change that is reported is the selected bundle. */
  lemma ChangedIsSelected(configs: seq<Bundle>, target: string, since: string)
    ensures Changed(configs, target, since).Some? ==> Changed(configs, target, since) == Select(configs, target)
    ensures Changed(configs, target, since).None? <==>
            Select(configs, target).None? || (since != "" && Select(configs, target).value.version == since)
  {
    hide Select;
  }

  /** `handleConfigWatch` trims both query parameters before looking. */
  function Watched(net: Net, configs: seq<Bundle>, target: string, since: string): Outcome<Option<Bundle>> {
    if net.trim(target) == "" then Rejected else Ok(Changed(configs, net.trim(target), net.trim(since)))
  }

  /** The store's list for a tenant. */
  ghost predicate Listing(s: State, tenantID: string, configs: seq<Bundle>) {
    tenantID in s.tenants && Lists(configs, Row(s.configs, tenantID), BundleID) && Sorted(configs, BundleBefore)
  }

  /** The store has one listing: everybody who asks sees the same order. */
  lemma ListingIsUnique(lib: Lib, s: State, tenantID: string, a: seq<Bundle>, b: seq<Bundle>)
    requires Sound(lib, s) && Listing(s, tenantID, a) && Listing(s, tenantID, b)
    ensures a == b
  {
    ListsStrictly(a, Row(s.configs, tenantID));
    ListsStrictly(b, Row(s.configs, tenantID));
    SameSets(a, b, BundleID);
    BundleOrder();
    StrictOrderIsUnique(a, b, BundleBefore);
  }

  lemma ListsStrictly(a: seq<Bundle>, m: map<string, Bundle>)
    requires Lists(a, m, BundleID) && Sorted(a, BundleBefore)
    ensures forall i, j :: 0 <= i < j < |a| ==> BundleBefore(a[i], a[j])
  {
    hide StrLess;
    StrOrder();
    forall i, j | 0 <= i < j < |a| ensures BundleBefore(a[i], a[j]) {
      assert BundleID(a[i]) != BundleID(a[j]) && !BundleBefore(a[j], a[i]);
    }
  }

  /** Everything the store lists for a tenant can be applied by that tenant's devices. */
  lemma ListingIsApplicable(lib: Lib, s: State, tenantID: string, configs: seq<Bundle>, deviceID: string)
    requires Sound(lib, s) && Listing(s, tenantID, configs)
    ensures Applicable(lib.net, tenantID, configs, deviceID)
  {
    hide ValidBundle;
    forall b | b in configs && b.targetID == deviceID ensures ValidBundle(lib.net, b) && b.tenantID == tenantID {
      FiledCell(s.configs, s.tenants, BundleFits(lib.net), tenantID, b.id);
    }
  }

  /** Convergence: after any history of the control plane, with no further change, a successful sync brings
      any device to the selected version. The watch trims the device id and the version: it then stays quiet
      exactly when that id is not blank and what it selects for the trimmed id, if anything, has the version
      reached, trimmed. */
  lemma Converges(
    lib: Lib, hs: seq<Happening>, tenantID: string, deviceID: string, version: string, fetched: seq<Bundle>,
    watched: seq<Bundle>)
    requires Lossless(lib)
    requires var s := Run(lib, None, hs).memory;
             Listing(s, tenantID, fetched) && Listing(s, tenantID, watched)
    ensures Takes(lib.net, tenantID, deviceID, fetched, true)
    ensures Select(watched, deviceID).Some? ==>
              Synced(version, fetched, deviceID) == Select(watched, deviceID).value.version
    ensures var selected := Select(watched, lib.net.trim(deviceID));
            Watched(lib.net, watched, deviceID, Synced(version, fetched, deviceID)) == Ok(None) <==>
            lib.net.trim(deviceID) != "" &&
            (selected.Some? ==> selected.value.version == lib.net.trim(Synced(version, fetched, deviceID)))
  {
    hide Sound, Listing, Run, Select, Lossless;
    var s, target := Run(lib, None, hs).memory, lib.net.trim(deviceID);
    EmptyIsSound(lib);
    RunIsSound(lib, None, hs);
    ListingIsUnique(lib, s, tenantID, fetched, watched);
    ListingIsApplicable(lib, s, tenantID, fetched, deviceID);
    ListingIsApplicable(lib, s, tenantID, watched, target);
    SelectIsTargeted(fetched, deviceID);
    SelectIsTargeted(watched, target);
  }

  /** For a device id without blank edges the watch is quiet exactly when nothing targets the device or the
      version reached has no blank edges. */
  lemma ConvergesOnTrimmedIds(
    lib: Lib, hs: seq<Happening>, tenantID: string, deviceID: string, version: string, fetched: seq<Bundle>,
    watched: seq<Bundle>)
    requires Lossless(lib)
    requires var s := Run(lib, None, hs).memory;
             Listing(s, tenantID, fetched) && Listing(s, tenantID, watched)
    requires lib.net.trim(deviceID) == deviceID && deviceID != ""
    ensures var reached := Synced(version, fetched, deviceID);
            Watched(lib.net, watched, deviceID, reached) == Ok(None) <==>
            (Select(watched, deviceID).Some? ==> lib.net.trim(reached) == reached)
  {
    hide Listing, Run, Select, Watched, Lossless;
    Converges(lib, hs, tenantID, deviceID, version, fetched, watched);
  }

  /** A device id with blank edges, from a run of the store: after a tenant publishes one bundle for that id
      and one for the trimmed id, the watch answers the device with the other's bundle, again and again, and
      the agent must refuse it each time. */
  lemma BlankIdIsNeverQuiet(lib: Lib, tenant: Tenant, mine: Bundle, other: Bundle, version: string, now: Time)
    requires ValidTenant(lib.net, tenant) && ValidBundle(lib.net, mine) && ValidBundle(lib.net, other)
    requires mine.tenantID == other.tenantID == tenant.id && StrLess(other.id, mine.id)
    requires lib.net.trim(mine.targetID) == other.targetID != mine.targetID
    requires lib.net.trim(mine.version) == mine.version != other.version
    ensures var s := Run(lib, None, Published(tenant, other, mine, now)).memory;
            var listed := [other.(createdAt := now), mine.(createdAt := now)];
            && Listing(s, tenant.id, listed)
            && Synced(version, listed, mine.targetID) == mine.version
            && Watched(lib.net, listed, mine.targetID, mine.version) == Ok(Some(other.(createdAt := now)))
            && !CanApply(lib.net, tenant.id, mine.targetID, other.(createdAt := now), true)
  {
    hide Accepts, ValidTenant, Run, Listing;
    var a, b := other.(createdAt := now), mine.(createdAt := now);
    PublishedListing(lib, tenant, other, mine, now);
    SelectOfTwo(a, b, b.targetID);
    SelectOfTwo(a, b, a.targetID);
  }

  /** A tenant is created and two bundles are published. */
  function Published(tenant: Tenant, first: Bundle, second: Bundle, now: Time): seq<Happening> {
    [Do(Call(CreateTenant(tenant), false, now, now), true), Do(Call(UpsertConfig(first), false, now, now), true),
     Do(Call(UpsertConfig(second), false, now, now), true)]
  }

  lemma PublishedListing(lib: Lib, tenant: Tenant, first: Bundle, second: Bundle, now: Time)
    requires ValidTenant(lib.net, tenant) && ValidBundle(lib.net, first) && ValidBundle(lib.net, second)
    requires first.tenantID == second.tenantID == tenant.id && StrLess(first.id, second.id)
    ensures Listing(Run(lib, None, Published(tenant, first, second, now)).memory, tenant.id,
                    [first.(createdAt := now), second.(createdAt := now)])
  {
    hide Run, Step, Listing, Lists, Sorted, ValidTenant, ValidBundle;
    var hs := Published(tenant, first, second, now);
    var a, b := first.(createdAt := now), second.(createdAt := now);
    RunOneCall(lib, hs, 0);
    RunOneCall(lib, hs, 1);
    RunOneCall(lib, hs, 2);
    assert hs[..3] == hs;
    var s0, s1, s2, s3 := EMPTY, Run(lib, None, hs[..1]).memory, Run(lib, None, hs[..2]).memory,
                            Run(lib, None, hs).memory;
    TenantCreated(lib, tenant, now);
    ConfigPublished(lib, s1, first, now);
    ConfigPublished(lib, s2, second, now);
    StrOrder();
    assert Row(s3.configs, tenant.id) == map[first.id := a, second.id := b];
    TwoListed(a, b);
    assert Listing(s3, tenant.id, [a, b]) by { ListingIs(s3, tenant.id, [a, b]); }
  }

  lemma RunOneCall(lib: Lib, hs: seq<Happening>, n: nat)
    requires n < |hs| && hs[n].Do?
    ensures Run(lib, None, hs[..n + 1]).memory == Step(lib, Run(lib, None, hs[..n]).memory, hs[n].call)
    ensures Run(lib, None, hs[..0]).memory == EMPTY
  {
    hide Accepts, Stored, EventOf;
    assert hs[..n + 1][..n] == hs[..n] && hs[..0] == [];
  }

  lemma TenantCreated(lib: Lib, tenant: Tenant, now: Time)
    requires ValidTenant(lib.net, tenant)
    ensures var s := Step(lib, EMPTY, Call(CreateTenant(tenant), false, now, now));
            tenant.id in s.tenants && s.configs == map[]
  {
    hide ValidTenant, EventID;
  }

  lemma ConfigPublished(lib: Lib, s: State, b: Bundle, now: Time)
    requires ValidBundle(lib.net, b) && b.tenantID in s.tenants
    ensures var after := Step(lib, s, Call(UpsertConfig(b), false, now, now));
            && after.tenants == s.tenants
            && Row(after.configs, b.tenantID) == Row(s.configs, b.tenantID)[b.id := b.(createdAt := now)]
  {
    hide ValidBundle, EventID;
  }

  lemma ListingIs(s: State, tenantID: string, configs: seq<Bundle>)
    requires tenantID in s.tenants && Lists(configs, Row(s.configs, tenantID), BundleID)
             && Sorted(configs, BundleBefore)
    ensures Listing(s, tenantID, configs)
  {
  }

  lemma TwoListed(a: Bundle, b: Bundle)
    requires StrLess(a.id, b.id)
    ensures Lists([a, b], map[a.id := a, b.id := b], BundleID) && Sorted([a, b], BundleBefore)
  {
    hide StrLess;
    StrOrder();
  }

  lemma SelectOfTwo(a: Bundle, b: Bundle, target: string)
    requires a.targetID != b.targetID && (target == a.targetID || target == b.targetID)
    ensures Select([a, b], target) == Some(if target == a.targetID then a else b)
  {
    hide StrLess;
    assert [] + [a] == [a] && [a] + [b] == [a, b];
    LastStep([], a, target);
    LastStep([a], b, target);
  }
}
