/**
 Putting an edge node into maintenance mode creates a region, a site, and a schedule, and moves a
 host; taking it out again undoes, from what the context recorded, whatever had been done.
 */
module Maintenance {
  import opened Wrappers

  datatype Host = Host(name: string, site: string)

  /**
   The remote inventory. A site belongs to a region, a host to a site or to none (""), a schedule to
   a host.
   */
  datatype Inventory = Inventory(
    regions: set<string>, sites: map<string, string>, hosts: map<string, Host>, schedules: map<string, string>)

  /** No reference dangles: a resource is never gone while another still refers to it. */
  ghost predicate Integrity(v: Inventory) {
    && "" !in v.regions && "" !in v.sites && "" !in v.hosts && "" !in v.schedules
    && (forall s :: s in v.sites ==> v.sites[s] in v.regions)
    && (forall h :: h in v.hosts ==> v.hosts[h].site == "" || v.hosts[h].site in v.sites)
    && (forall s :: s in v.schedules ==> v.schedules[s] in v.hosts)
  }

  /** The identifiers the context has recorded; "" for none. */
  datatype Ids = Ids(region: string, site: string, host: string, schedule: string)

  const NO_IDS := Ids("", "", "", "")

  /**
   How a call that creates a resource goes: the identifier of what was created, if anything, and
   the one in the answer, "" if there is none in it. No answer is an error or an unexpected status.
   */
  datatype Reply = Reply(made: Option<string>, answer: Option<string>)

  /** How the calls of one attempt go; the host's configuration may take effect and still fail. */
  datatype Replies = Replies(
    uuid: bool, region: Reply, site: Reply, host: Option<string>, patched: bool, configured: bool, schedule: Reply)

  /** What was created is new, and what the answer names is what was created. */
  predicate Truthful(r: Reply, taken: set<string>) {
    && (r.made.Some? ==> r.made.value != "" && r.made.value !in taken)
    && (r.answer.Some? && r.answer.value != "" ==> r.made == r.answer)
  }

  predicate Plausible(v: Inventory, r: Replies) {
    && Truthful(r.region, v.regions) && Truthful(r.site, v.sites.Keys) && Truthful(r.schedule, v.schedules.Keys)
    && (r.host.Some? ==> r.host.value in v.hosts)
    && (r.configured ==> r.patched)
  }

  /** The call succeeded as far as the caller can tell. */
  predicate Named(r: Reply) {
    r.answer.Some? && r.answer.value != ""
  }

  /** What the context records of an answer; without one it stays as it is. */
  function Recording(r: Reply, before: string): string {
    if r.answer.Some? then r.answer.value else before
  }

  function Configure(v: Inventory, host: string, site: string): Inventory {
    if host in v.hosts then v.(hosts := v.hosts[host := Host(host, site)]) else v
  }

  datatype State = State(inv: Inventory, ids: Ids, ok: bool)

  function WithRegion(v: Inventory, r: Reply): Inventory {
    if r.made.Some? then v.(regions := v.regions + {r.made.value}) else v
  }

  function WithSite(v: Inventory, r: Reply, region: string): Inventory {
    if r.made.Some? then v.(sites := v.sites[r.made.value := region]) else v
  }

  function WithSchedule(v: Inventory, r: Reply, host: string): Inventory {
    if r.made.Some? then v.(schedules := v.schedules[r.made.value := host]) else v
  }

  /** What setting maintenance mode leaves behind, wherever it stops. */
  function Set(v: Inventory, ids: Ids, r: Replies): State {
    if !r.uuid then State(v, ids, false)
    else
      var v1, ids1 := WithRegion(v, r.region), ids.(region := Recording(r.region, ids.region));
      if !Named(r.region) then State(v1, ids1, false) else SetSite(v1, ids1, r)
  }

  function SetSite(v: Inventory, ids: Ids, r: Replies): State {
    var v1, ids1 := WithSite(v, r.site, ids.region), ids.(site := Recording(r.site, ids.site));
    if !Named(r.site) then State(v1, ids1, false) else SetHost(v1, ids1, r)
  }

  function SetHost(v: Inventory, ids: Ids, r: Replies): State {
    if r.host.None? then State(v, ids.(host := ""), false)
    else
      var v1, ids1 := if r.patched then Configure(v, r.host.value, ids.site) else v, ids.(host := r.host.value);
      if !r.configured then State(v1, ids1, false)
      else
        State(WithSchedule(v1, r.schedule, ids1.host),
              ids1.(schedule := Recording(r.schedule, ids1.schedule)), Named(r.schedule))
  }

  // Undoing, call by call

  function DeleteSchedule(v: Inventory, ids: Ids): Inventory {
    if ids.schedule != "" then v.(schedules := v.schedules - {ids.schedule}) else v
  }

  function DetachHost(v: Inventory, ids: Ids): Inventory {
    if ids.host != "" then Configure(v, ids.host, "") else v
  }

  function DeleteSite(v: Inventory, ids: Ids): Inventory {
    if ids.site != "" && ids.region != "" then v.(sites := v.sites - {ids.site}) else v
  }

  function DeleteRegion(v: Inventory, ids: Ids): Inventory {
    if ids.region != "" then v.(regions := v.regions - {ids.region}) else v
  }

  /** The inventory after the first `n` of the four undoing calls. */
  function UnsetUpTo(v: Inventory, ids: Ids, n: nat): Inventory {
    var v1 := if n > 0 then DeleteSchedule(v, ids) else v;
    var v2 := if n > 1 then DetachHost(v1, ids) else v1;
    var v3 := if n > 2 then DeleteSite(v2, ids) else v2;
    if n > 3 then DeleteRegion(v3, ids) else v3
  }

  /** Whether the service carries out each of the undoing calls, if it is made. */
  datatype Answers = Answers(schedule: bool, host: bool, site: bool, region: bool)

  /** How many of the undoing calls succeed or are skipped before the first one that fails. */
  function CallsDone(ids: Ids, a: Answers): nat {
    if ids.schedule != "" && !a.schedule then 0
    else if ids.host != "" && !a.host then 1
    else if ids.site != "" && ids.region != "" && !a.site then 2
    else if ids.region != "" && !a.region then 3
    else 4
  }

  // The program

  class MaintenanceModeContext {
    var region: string
    var site: string
    var host: string
    var schedule: string

    constructor ()
      ensures Recorded() == NO_IDS
    {
      region, site, host, schedule := "", "", "", "";
    }

    function Recorded(): Ids
      reads this
    {
      Ids(region, site, host, schedule)
    }
  }

  class Service {
    var inv: Inventory

    constructor (v: Inventory)
      ensures inv == v
    {
      inv := v;
    }

    method PatchHost(host: string, site: string)
      modifies this
      ensures inv == Configure(old(inv), host, site)
    {
      inv := Configure(inv, host, site);
    }
  }

  method SetMaintenanceMode(api: Service, context: MaintenanceModeContext, r: Replies) returns (ok: bool)
    modifies api, context
    ensures State(api.inv, context.Recorded(), ok) == Set(old(api.inv), old(context.Recorded()), r)
  {
    if !r.uuid {
      return false;
    }
    api.inv := WithRegion(api.inv, r.region);
    if r.region.answer.None? {
      return false;
    }
    context.region := r.region.answer.value;
    if context.region == "" {
      return false;
    }

    api.inv := WithSite(api.inv, r.site, context.region);
    if r.site.answer.None? {
      return false;
    }
    context.site := r.site.answer.value;
    if context.site == "" {
      return false;
    }

    context.host := if r.host.Some? then r.host.value else "";
    if r.host.None? {
      return false;
    }

    if r.patched {
      api.PatchHost(context.host, context.site);
    }
    if !r.configured {
      return false;
    }

    api.inv := WithSchedule(api.inv, r.schedule, context.host);
    if r.schedule.answer.None? {
      return false;
    }
    context.schedule := r.schedule.answer.value;
    return context.schedule != "";
  }

  method UnsetMaintenanceMode(api: Service, context: MaintenanceModeContext, a: Answers) returns (ok: bool)
    modifies api
    ensures api.inv == UnsetUpTo(old(api.inv), context.Recorded(), CallsDone(context.Recorded(), a))
    ensures ok <==> CallsDone(context.Recorded(), a) == 4
  {
    if context.schedule != "" {
      if !a.schedule {
        return false;
      }
      api.inv := api.inv.(schedules := api.inv.schedules - {context.schedule});
    }
    if context.host != "" {
      if !a.host {
        return false;
      }
      api.PatchHost(context.host, "");
    }
    if context.site != "" && context.region != "" {
      if !a.site {
        return false;
      }
      api.inv := api.inv.(sites := api.inv.sites - {context.site});
    }
    if context.region != "" {
      if !a.region {
        return false;
      }
      api.inv := api.inv.(regions := api.inv.regions - {context.region});
    }
    return true;
  }

  // What setting achieves

  /** Everything up to the call for the site, for the host, and for the schedule, went well. */
  predicate AsksForSite(r: Replies) {
    r.uuid && r.region.answer.Some? && r.region.answer.value != ""
  }

  predicate AsksForHost(r: Replies) {
    AsksForSite(r) && r.site.answer.Some? && r.site.answer.value != ""
  }

  predicate AsksForSchedule(r: Replies) {
    AsksForHost(r) && r.host.Some? && r.configured
  }

  /** Success is reported exactly if every call went well. */
  lemma SetReports(v: Inventory, ids: Ids, r: Replies)
    ensures Set(v, ids, r).ok <==>
            AsksForSchedule(r) && r.schedule.answer.Some? && r.schedule.answer.value != ""
  {
  }

  /** What there is of each kind wherever setting stops: what was there before, and what was made by then. */
  lemma SetMakes(v: Inventory, ids: Ids, r: Replies)
    ensures var after := Set(v, ids, r).inv;
            && after.regions == (if r.uuid && r.region.made.Some? then v.regions + {r.region.made.value} else v.regions)
            && after.sites == (if AsksForSite(r) && r.site.made.Some?
                               then v.sites[r.site.made.value := r.region.answer.value] else v.sites)
            && after.hosts == (if AsksForHost(r) && r.host.Some? && r.patched && r.host.value in v.hosts
                               then v.hosts[r.host.value := Host(r.host.value, r.site.answer.value)] else v.hosts)
            && after.schedules == (if AsksForSchedule(r) && r.schedule.made.Some?
                                   then v.schedules[r.schedule.made.value := r.host.value] else v.schedules)
  {
    if AsksForSite(r) {
      var v1, ids1 := WithRegion(v, r.region), ids.(region := r.region.answer.value);
      assert Set(v, ids, r) == SetSite(v1, ids1, r);
      if AsksForHost(r) {
        var v2, ids2 := WithSite(v1, r.site, ids1.region), ids1.(site := r.site.answer.value);
        assert SetSite(v1, ids1, r) == SetHost(v2, ids2, r);
        SetHostMakes(v2, ids2, r);
      }
    }
  }

  lemma SetHostMakes(v: Inventory, ids: Ids, r: Replies)
    ensures var after := SetHost(v, ids, r).inv;
            && after.regions == v.regions && after.sites == v.sites
            && after.hosts == (if r.host.Some? && r.patched && r.host.value in v.hosts
                               then v.hosts[r.host.value := Host(r.host.value, ids.site)] else v.hosts)
            && after.schedules == (if r.host.Some? && r.configured && r.schedule.made.Some?
                                   then v.schedules[r.schedule.made.value := r.host.value] else v.schedules)
  {
  }

  /** What the context holds wherever setting stops: each answer that came, and what was there before. */
  lemma SetRecords(v: Inventory, ids: Ids, r: Replies)
    ensures var after := Set(v, ids, r).ids;
            && after.region == (if r.uuid && r.region.answer.Some? then r.region.answer.value else ids.region)
            && after.site == (if AsksForSite(r) && r.site.answer.Some? then r.site.answer.value else ids.site)
            && after.host == (if !AsksForHost(r) then ids.host else if r.host.Some? then r.host.value else "")
            && after.schedule ==
               (if AsksForSchedule(r) && r.schedule.answer.Some? then r.schedule.answer.value else ids.schedule)
  {
  }

  /** After success the host is in the new site of the new region and scheduled, and nothing else has changed. */
  lemma SetAchieves(v: Inventory, ids: Ids, r: Replies)
    requires Plausible(v, r) && Set(v, ids, r).ok
    ensures var s := Set(v, ids, r); var after, now := s.inv, s.ids;
            && now.region in after.regions && now.region !in v.regions && after.regions - {now.region} == v.regions
            && now.site in after.sites && after.sites[now.site] == now.region && after.sites - {now.site} == v.sites
            && now.host in v.hosts && now.host in after.hosts
            && after.hosts[now.host] == Host(now.host, now.site)
            && after.hosts - {now.host} == v.hosts - {now.host}
            && now.schedule in after.schedules && after.schedules[now.schedule] == now.host
            && after.schedules - {now.schedule} == v.schedules
  {
    SetReports(v, ids, r);
    SetMakes(v, ids, r);
    SetRecords(v, ids, r);
    var s := Set(v, ids, r);
    assert s.ids.region == r.region.made.value && s.ids.site == r.site.made.value;
    assert s.inv.hosts - {s.ids.host} == v.hosts - {s.ids.host};
    assert s.inv.sites - {s.ids.site} == v.sites;
    assert s.inv.schedules - {s.ids.schedule} == v.schedules;
  }

  // What undoing achieves

  /** Each undoing call is made only if every recorded one before it was carried out. */
  predicate Unscheduled(ids: Ids, a: Answers) {
    ids.schedule == "" || a.schedule
  }

  predicate Detached(ids: Ids, a: Answers) {
    Unscheduled(ids, a) && (ids.host == "" || a.host)
  }

  predicate Unsited(ids: Ids, a: Answers) {
    Detached(ids, a) && (ids.site == "" || ids.region == "" || a.site)
  }

  /** Undoing reports success exactly if every call that is needed was carried out. */
  lemma UndoingReports(ids: Ids, a: Answers)
    ensures CallsDone(ids, a) == 4 <==> Unsited(ids, a) && (ids.region == "" || a.region)
  {
  }

  lemma UnsetLeaves(v: Inventory, ids: Ids, n: nat)
    ensures var after := UnsetUpTo(v, ids, n);
            && after.schedules == (if n > 0 && ids.schedule != "" then v.schedules - {ids.schedule} else v.schedules)
            && after.hosts == (if n > 1 && ids.host in v.hosts && ids.host != ""
                               then v.hosts[ids.host := Host(ids.host, "")] else v.hosts)
            && after.sites == (if n > 2 && ids.site != "" && ids.region != "" then v.sites - {ids.site} else v.sites)
            && after.regions == (if n > 3 && ids.region != "" then v.regions - {ids.region} else v.regions)
  {
    var v1 := if n > 0 then DeleteSchedule(v, ids) else v;
    var v2 := if n > 1 then DetachHost(v1, ids) else v1;
    assert v2.sites == v.sites && v2.regions == v.regions && v1.hosts == v.hosts;
  }

  /** What undoing leaves of each kind, up to the first call that fails. */
  lemma UndoingLeaves(v: Inventory, ids: Ids, a: Answers)
    ensures var after := UnsetUpTo(v, ids, CallsDone(ids, a));
            && after.schedules ==
               (if ids.schedule != "" && a.schedule then v.schedules - {ids.schedule} else v.schedules)
            && after.hosts == (if Unscheduled(ids, a) && ids.host in v.hosts && ids.host != "" && a.host
                               then v.hosts[ids.host := Host(ids.host, "")] else v.hosts)
            && after.sites == (if Detached(ids, a) && ids.site != "" && ids.region != "" && a.site
                               then v.sites - {ids.site} else v.sites)
            && after.regions == (if Unsited(ids, a) && ids.region != "" && a.region
                                 then v.regions - {ids.region} else v.regions)
  {
    UnsetLeaves(v, ids, CallsDone(ids, a));
  }

  /** A resource is recorded only after the one it refers to. */
  lemma RecordedInOrder(v: Inventory, r: Replies)
    requires Integrity(v) && Plausible(v, r)
    ensures var ids := Set(v, NO_IDS, r).ids;
            && (ids.schedule != "" ==> ids.host != "")
            && (ids.host != "" ==> ids.site != "")
            && (ids.site != "" ==> ids.region != "")
  {
  }

  /** Nothing but what the context recorded refers to what it recorded. */
  ghost predicate Exclusive(v: Inventory, ids: Ids) {
    && (ids.site != "" ==> forall h :: h in v.hosts && v.hosts[h].site == ids.site ==> h == ids.host && h != "")
    && (ids.region != "" ==> forall s :: s in v.sites && v.sites[s] == ids.region ==> s == ids.site && s != "")
  }

  lemma SetIsExclusive(v: Inventory, r: Replies)
    requires Integrity(v) && Plausible(v, r) && !LosesSite(r)
    ensures Integrity(Set(v, NO_IDS, r).inv)
    ensures Exclusive(Set(v, NO_IDS, r).inv, Set(v, NO_IDS, r).ids)
  {
  }

  lemma ScheduleGone(v: Inventory, ids: Ids)
    requires Integrity(v) && Exclusive(v, ids)
    ensures Integrity(DeleteSchedule(v, ids)) && Exclusive(DeleteSchedule(v, ids), ids)
  {
  }

  lemma HostDetached(v: Inventory, ids: Ids)
    requires Integrity(v) && Exclusive(v, ids)
    ensures Integrity(DetachHost(v, ids)) && Exclusive(DetachHost(v, ids), ids)
    ensures ids.site != "" ==> forall h :: h in v.hosts ==> DetachHost(v, ids).hosts[h].site != ids.site
  {
  }

  lemma SiteGone(v: Inventory, ids: Ids)
    requires Integrity(v) && Exclusive(v, ids)
    requires ids.site != "" ==> forall h :: h in v.hosts ==> v.hosts[h].site != ids.site
    ensures Integrity(DeleteSite(v, ids))
    ensures ids.region != "" ==> forall s :: s in DeleteSite(v, ids).sites ==> v.sites[s] != ids.region
  {
  }

  lemma RegionGone(v: Inventory, ids: Ids)
    requires Integrity(v) && (ids.region != "" ==> forall s :: s in v.sites ==> v.sites[s] != ids.region)
    ensures Integrity(DeleteRegion(v, ids))
  {
  }

  lemma UndoingKeepsIntegrity(v: Inventory, ids: Ids, n: nat)
    requires Integrity(v) && Exclusive(v, ids) && n <= 4
    ensures Integrity(UnsetUpTo(v, ids, n))
  {
    var v1 := DeleteSchedule(v, ids);
    var v2 := DetachHost(v1, ids);
    var v3 := DeleteSite(v2, ids);
    ScheduleGone(v, ids);
    HostDetached(v1, ids);
    SiteGone(v2, ids);
    RegionGone(v3, ids);
  }

  /** The call created a resource that its caller cannot name. */
  predicate Lost(r: Reply) {
    r.made.Some? && (r.answer.None? || r.answer.value == "")
  }

  predicate LosesRegion(r: Replies) {
    r.uuid && Lost(r.region)
  }

  predicate LosesSite(r: Replies) {
    AsksForSite(r) && Lost(r.site)
  }

  predicate LosesSchedule(r: Replies) {
    AsksForSchedule(r) && Lost(r.schedule)
  }

  /**
   At no point of setting or undoing does a resource go that another still refers to, unless a site
   was created without being recorded: then, and only then, its region goes before it.
   */
  lemma NeverDangles(v: Inventory, r: Replies, n: nat)
    requires Integrity(v) && Plausible(v, r) && n <= 4
    ensures Integrity(Set(v, NO_IDS, r).inv)
    ensures Integrity(UnsetUpTo(Set(v, NO_IDS, r).inv, Set(v, NO_IDS, r).ids, n)) <==> !(n == 4 && LosesSite(r))
  {
    var s := Set(v, NO_IDS, r);
    if LosesSite(r) {
      LostSiteDangles(v, r, n);
    } else {
      SetIsExclusive(v, r);
      UndoingKeepsIntegrity(s.inv, s.ids, n);
    }
  }

  lemma LostSiteDangles(v: Inventory, r: Replies, n: nat)
    requires Integrity(v) && Plausible(v, r) && n <= 4 && LosesSite(r)
    ensures Integrity(Set(v, NO_IDS, r).inv)
    ensures Integrity(UnsetUpTo(Set(v, NO_IDS, r).inv, Set(v, NO_IDS, r).ids, n)) <==> n < 4
  {
    var s := Set(v, NO_IDS, r);
    assert s.ids == Ids(r.region.answer.value, "", "", "");
    if n == 4 {
      var u := UnsetUpTo(s.inv, s.ids, 4);
      assert r.site.made.value in u.sites && u.sites[r.site.made.value] !in u.regions;
    }
  }

  /** What undoing cannot reach: the resource, if any, that was created without being recorded. */
  function Left(v: Inventory, r: Replies): Inventory {
    if LosesRegion(r) then WithRegion(v, r.region)
    else if LosesSite(r) then WithSite(v, r.site, r.region.answer.value)
    else if LosesSchedule(r) then WithSchedule(v, r.schedule, r.host.value)
    else v
  }

  /**
   Undone from wherever it stopped: nothing that was recorded is left, nothing else is gone, the host,
   if one was found, is detached, and of what was created only an unrecorded resource remains.
   */
  lemma Compensation(v: Inventory, r: Replies)
    requires Integrity(v) && Plausible(v, r)
    ensures var s := Set(v, NO_IDS, r);
            UnsetUpTo(s.inv, s.ids, 4) ==
            Left(if AsksForHost(r) && r.host.Some? then Configure(v, r.host.value, "") else v, r)
  {
    if AsksForHost(r) && r.host.Some? {
      CompensationWithHost(v, r);
    } else {
      CompensationWithoutHost(v, r);
    }
  }

  lemma CompensationWithoutHost(v: Inventory, r: Replies)
    requires Integrity(v) && Plausible(v, r) && !(AsksForHost(r) && r.host.Some?)
    ensures UnsetUpTo(Set(v, NO_IDS, r).inv, Set(v, NO_IDS, r).ids, 4) == Left(v, r)
  {
    var s := Set(v, NO_IDS, r);
    var u := UnsetUpTo(s.inv, s.ids, 4);
    assert s.ids.host == "" && s.ids.schedule == "";
    assert u.regions == Left(v, r).regions;
    assert u.sites == Left(v, r).sites;
  }

  lemma CompensationWithHost(v: Inventory, r: Replies)
    requires Integrity(v) && Plausible(v, r) && AsksForHost(r) && r.host.Some?
    ensures UnsetUpTo(Set(v, NO_IDS, r).inv, Set(v, NO_IDS, r).ids, 4) == Left(Configure(v, r.host.value, ""), r)
  {
    var s := Set(v, NO_IDS, r);
    var u := UnsetUpTo(s.inv, s.ids, 4);
    var e := Left(Configure(v, r.host.value, ""), r);
    assert s.ids.region == r.region.answer.value && s.ids.site == r.site.answer.value;
    assert u.regions == e.regions;
    assert u.sites == e.sites;
    assert u.schedules == e.schedules;
    assert u.hosts == e.hosts;
  }

  /**
   The inventory is restored exactly when nothing was created without being recorded, and no host was
   found or the one found had no site and its own identifier for a name.
   */
  lemma RestoredExactly(v: Inventory, r: Replies)
    requires Integrity(v) && Plausible(v, r)
    ensures var s := Set(v, NO_IDS, r);
            UnsetUpTo(s.inv, s.ids, 4) == v <==>
            && !LosesRegion(r) && !LosesSite(r) && !LosesSchedule(r)
            && (AsksForHost(r) && r.host.Some? ==> v.hosts[r.host.value] == Host(r.host.value, ""))
  {
    Compensation(v, r);
    if r.host.Some? && v.hosts[r.host.value] == Host(r.host.value, "") {
      assert v.hosts[r.host.value := Host(r.host.value, "")] == v.hosts;
    }
  }
}
