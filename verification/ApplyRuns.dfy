/** What one application of a snapshot promises of its requests. */
module ApplyRuns {
  import opened Options
  import opened Json
  import opened References
  import opened ApplyTrace
  import Membership
  import Ordering

  lemma AllDeletions(trace: Trace, late: nat, ids: seq<string>, prunes: bool, entities: seq<Proxy>,
                     previous: seq<Proxy>)
    requires Pruning(trace, late, ids, prunes, entities, previous)
    ensures forall k :: late <= k < |trace| ==> trace[k].request == DeleteProxy(ids[k - late])
  {
    forall k | late <= k < |trace| ensures trace[k].request == DeleteProxy(ids[k - late]) {
      assert trace[late + (k - late)].request == DeleteProxy(ids[k - late]);
    }
  }

  /** Nothing but proxies is touched before the Core has listed every proxy with both ids, has taken every edit of one,
      and has listed the relay when there are activities to restore. */
  lemma ProxiesComeFirst(core: Core, trace: Trace, start: nat, done: bool, prune: bool, manifest: Manifest,
                         catalog: Catalog, previous: seq<Proxy>, i: nat, d: Proxy)
    requires OneRun(core, trace, start, done, prune, manifest, catalog, previous)
    requires start <= i < |trace|
      && !trace[i].request.ListEntities? && !trace[i].request.Configure? && !trace[i].request.PatchProxy?
    ensures d in catalog.entities && d.targetId != "" && d.localId != "" ==>
      && (exists k: nat :: start <= k < i
            && trace[k].request == ListEntities && core(k).Ok() && d.targetId in core(k).listed)
      && (d.editable ==> exists k: nat :: start <= k < i && trace[k].request == PatchProxy(d.targetId) && core(k).Ok())
    ensures "activities" in manifest.sections && manifest.activities != [] ==>
      exists k: nat :: start <= k < i
        && trace[k].request == ListEntities && core(k).Ok() && "remote_sync.main.activity_relay" in core(k).listed
  {
    hide RunUnder, Usable;
    assert Founded(core, trace[..i], start, trace[i].request, manifest, catalog.entities);
    UnlistedExact(catalog.entities, {}, d);
  }

  /** Only parts of a snapshot are touched that the manifest includes. */
  lemma OnlyIncludedParts(core: Core, trace: Trace, start: nat, done: bool, prune: bool, manifest: Manifest,
                          catalog: Catalog, previous: seq<Proxy>, i: nat)
    requires OneRun(core, trace, start, done, prune, manifest, catalog, previous)
    requires start <= i < |trace|
    ensures match trace[i].request
      case ResourceRequest => "resources" in manifest.sections
      case DockRequest => "docks" in manifest.sections
      case GroupRequest => "activity_groups" in manifest.sections
      case ProfileRequest => "profiles" in manifest.sections
      case PatchMembership(_, _, _) => "activities" in manifest.sections
      case PatchContent(_, _, _) => "activities" in manifest.sections
      case ProbeEntity(_) => "macros" in manifest.sections
      case PatchPlain(section, _, _) => (if section == Macros then "macros" else "activities") in manifest.sections
      case PatchButtons(section, _, _) => (if section == Macros then "macros" else "activities") in manifest.sections
      case PostButtons(section, _, _) => (if section == Macros then "macros" else "activities") in manifest.sections
      case Probe(section, _) => (if section == Macros then "macros" else "activities") in manifest.sections
      case Create(section, _) => (if section == Macros then "macros" else "activities") in manifest.sections
      case ReadUi(section, _) => (if section == Macros then "macros" else "activities") in manifest.sections
      case EditUi(section, _) => (if section == Macros then "macros" else "activities") in manifest.sections
      case Prune(section, _) => (if section == Macros then "macros" else "activities") in manifest.sections
      case _ => true
  {
    hide RunUnder, ProxiesReady, RelayReady;
    assert Founded(core, trace[..i], start, trace[i].request, manifest, catalog.entities);
    var r := trace[i].request;
    assert forall section :: About(r, section) ==> Includes(manifest, section);
    assert About(r, Macros) ==> "macros" in manifest.sections;
    assert About(r, Activities) ==> "activities" in manifest.sections;
  }

  /** Groups and profiles are requested only after all filling in, and only when nothing of it failed: neither fields
      nor members, nor the reading of pages, nor both ways of sending buttons. */
  lemma LateAfterCleanFinish(core: Core, trace: Trace, start: nat, done: bool, prune: bool, manifest: Manifest,
                             catalog: Catalog, previous: seq<Proxy>, i: nat, j: nat)
    requires OneRun(core, trace, start, done, prune, manifest, catalog, previous)
    requires start <= i < |trace| && (trace[i].request.GroupRequest? || trace[i].request.ProfileRequest?)
    requires start <= j < |trace|
    ensures match trace[j].request
      case PatchPlain(_, _, _) => j < i && core(j).status == Accepted
      case PatchMembership(_, _, _) => j < i && core(j).status == Accepted
      case PatchContent(_, _, _) => j < i && core(j).status == Accepted
      case PatchButtons(_, _, _) => j < i && core(j).status != Broken
      case PostButtons(_, _, _) =>
        && j < i && core(j).status != Broken && core(j).status != Invalid
        && (core(j).status != Accepted && j > 0 ==> core(j - 1).status != Invalid)
      case ReadUi(_, _) => j < i && core(j).status != Broken && core(j).status != Invalid
      case EditUi(_, _) => j < i
      case _ => true
  {
    hide WellFounded, Planned, Ruled, Complete, Superseded, Base, Ordering.Distinct;
    var plan :| RunUnder(core, trace, start, done, prune, manifest, catalog, previous, plan);
    var early: nat, late: nat, ids: seq<string> :| Phases(core, trace, start, early, late)
      && Pruning(trace, late, ids, done && prune, catalog.entities, previous);
    AllDeletions(trace, late, ids, done && prune, catalog.entities, previous);
    assert early <= i < late && NoFailure(core, trace, start, early);
    if Finishing(trace[j].request) { assert j < early && !Fails(core, trace, j); }
  }

  /** A proxy is deleted only when the run is done, without a throw or an error, only when it is superseded, and
      only with deletions after it. */
  lemma DeletionsComeLast(core: Core, trace: Trace, start: nat, done: bool, prune: bool, manifest: Manifest,
                          catalog: Catalog, previous: seq<Proxy>, i: nat)
    requires OneRun(core, trace, start, done, prune, manifest, catalog, previous)
    requires start <= i < |trace| && trace[i].request.DeleteProxy?
    ensures done && prune && Superseded(trace[i].request.id, catalog.entities, previous)
    ensures forall k :: i <= k < |trace| ==> trace[k].request.DeleteProxy?
  {
    hide WellFounded, Planned, Ruled, Complete, Superseded, Base, Ordering.Distinct;
    var plan :| RunUnder(core, trace, start, done, prune, manifest, catalog, previous, plan);
    var early: nat, late: nat, ids: seq<string> :| Phases(core, trace, start, early, late)
      && Pruning(trace, late, ids, done && prune, catalog.entities, previous);
    AllDeletions(trace, late, ids, done && prune, catalog.entities, previous);
    assert ids[i - late] in ids;
  }

  /** A run that is done and prunes deletes every superseded proxy. */
  lemma SupersededIsDeleted(core: Core, trace: Trace, start: nat, manifest: Manifest, catalog: Catalog,
                            previous: seq<Proxy>, id: string)
    requires OneRun(core, trace, start, true, true, manifest, catalog, previous)
      && Superseded(id, catalog.entities, previous)
    ensures exists i: nat :: start <= i < |trace| && trace[i].request == DeleteProxy(id)
  {
    hide WellFounded, Planned, Ruled, Complete, Superseded, Base, Ordering.Distinct;
    var plan :| RunUnder(core, trace, start, true, true, manifest, catalog, previous, plan);
    var early: nat, late: nat, ids: seq<string> :| Phases(core, trace, start, early, late)
      && Pruning(trace, late, ids, true, catalog.entities, previous);
    var k :| 0 <= k < |ids| && ids[k] == id;
    assert trace[late + k].request == DeleteProxy(id);
  }

  /** The content of an activity goes to an id that the Core told, directly after a membership request that the Core
      took, with exactly the members of that activity's rewritten options, buttons and pages, each once, and under a
      mapping that is the base of the run but for what the Core added. */
  lemma ContentIsPaired(core: Core, trace: Trace, start: nat, done: bool, prune: bool, manifest: Manifest,
                        catalog: Catalog, previous: seq<Proxy>, i: nat)
    returns (p: Prepared, plan: Plan)
    requires OneRun(core, trace, start, done, prune, manifest, catalog, previous)
    requires start <= i < |trace| && trace[i].request.PatchContent?
    ensures Planned(core, trace, start, manifest, plan) && p in plan.activities && p.item in manifest.activities
    ensures Told(core, trace, start, Activities, p.targetId) && trace[i].request == ContentOf(p, trace[i].mapping)
    ensures Follows(core, start, i, trace[i].mapping, Base(catalog.mapping, plan))
    ensures i > start && trace[i - 1].request == MembershipOf(p, trace[i].mapping) && core(i - 1).Ok()
    ensures Ordering.Distinct(trace[i].request.ids)
  {
    hide WellFounded, Complete, Shaped, Told, Ids, Rewritten, Follows, Ordering.Distinct;
    plan :| RunUnder(core, trace, start, done, prune, manifest, catalog, previous, plan);
    assert Rightful(core, trace, start, i, plan, Base(catalog.mapping, plan));
    var section, q :| q in PlanFor(plan, section) && OneOf(core, trace, start, i, section, q);
    p := q;
    assert AllTold(core, trace, start, Activities, ItemsFor(manifest, Activities), PlanFor(plan, Activities));
    IdsOnce(p.item, trace[i].mapping);
  }

  lemma IdsOnce(item: Item, m: Mapping)
    ensures Ordering.Distinct(Ids(item, m))
  {
    var options := match Get(Rewritten(item, m), "options") case Some(value) => value case None => Obj([]);
    Membership.MembershipIsExact(options, RewrittenMaybe(item.buttons, m), RewrittenMaybe(OrEmpty(item.ui), m));
  }

  /** In a run that is done, every record with an id, of each section that the manifest includes, was prepared under an
      id that the Core told, and filled in there. */
  lemma EveryRecordIsRestored(core: Core, trace: Trace, start: nat, prune: bool, manifest: Manifest, catalog: Catalog,
                              previous: seq<Proxy>, section: Section, item: Item)
    returns (p: Prepared, plan: Plan)
    requires OneRun(core, trace, start, true, prune, manifest, catalog, previous)
    requires item.sourceId != ""
    requires match section
      case Macros => "macros" in manifest.sections && item in manifest.macros
      case Activities => "activities" in manifest.sections && item in manifest.activities
    ensures p.item == item && p.targetId != "" && Told(core, trace, start, section, p.targetId)
    ensures Finished(core, trace, start, start, section, p, Base(catalog.mapping, plan))
  {
    hide WellFounded, Shaped, Told, Finished, Ruled;
    plan :| RunUnder(core, trace, start, true, prune, manifest, catalog, previous, plan);
    assert Includes(manifest, section) && item in ItemsFor(manifest, section);
    assert IsPrepared(PlanFor(plan, section), item);
    p :| p in PlanFor(plan, section) && p.item == item;
    assert AllTold(core, trace, start, section, ItemsFor(manifest, section), PlanFor(plan, section));
    assert AllFinished(core, trace, start, start, section, PlanFor(plan, section), Base(catalog.mapping, plan));
  }
}
