/** One application of a snapshot to a Satellite's Core that may refuse any request. */
module Apply {
  import opened Options
  import opened Json
  import opened References
  import opened ApplyTrace
  import Membership
  import Ordering
  import Cache = OperationCache

  datatype Report = Report(errors: seq<string>, success: bool, duplicate: bool)

  /** Where the runs of one operation lie in the trace, and whether the first one threw. */
  datatype Runs = Runs(first: nat, end: nat, second: nat, threw: bool)

  /** With the inhibitor its request comes before the first run, and when the Core took it, its release after that
      run; then a second run follows exactly when the first one threw, as it does when its first listing is refused. */
  ghost predicate Arranged(core: Core, trace: Trace, before: nat, useInhibitor: bool, runs: Runs) {
    var awake := useInhibitor && core(before).Ok();
    && runs.first == before + (if useInhibitor then 1 else 0)
    && runs.first < runs.end <= |trace| && (useInhibitor ==> trace[before].request == Inhibit)
    && runs.second == runs.end + (if awake then 1 else 0) <= |trace|
    && (awake ==> trace[runs.end].request == Release)
    && (runs.second < |trace| <==> awake && runs.threw)
    && (!core(runs.first).Ok() ==> runs.threw)
  }

  class SnapshotApplier {
    const core: Core
    const prune: bool
    const useInhibitor: bool
    const operationCache: Cache.OperationCache<Report>
    var trace: Trace
    var errors: seq<string>
    var mapping: Mapping
    var stored: map<(Section, string), string>

    constructor (core: Core, prune: bool, useInhibitor: bool, operationCache: Cache.OperationCache<Report>,
                 stored: map<(Section, string), string>)
      ensures this.core == core && this.prune == prune && this.useInhibitor == useInhibitor
      ensures this.operationCache == operationCache && this.stored == stored
      ensures trace == [] && errors == [] && mapping == map[]
    {
      this.core, this.prune, this.useInhibitor, this.operationCache := core, prune, useInhibitor, operationCache;
      this.stored := stored;
      trace, errors, mapping := [], [], map[];
    }

    method Call(r: Request) returns (a: Answer)
      modifies `trace
      ensures trace == old(trace) + [Sent(r, mapping)] && a == core(|old(trace)|)
    {
      a := core(|trace|);
      trace := trace + [Sent(r, mapping)];
    }

    /** A step of the run made of any number of requests of one kind, also none. It may record errors and throw,
        and in all but the resources what the answers add comes into the mapping. */
    method Opaque(r: Request) returns (thrown: bool)
      modifies `trace, `errors, `mapping
      ensures old(trace) <= trace && old(errors) <= errors
      ensures forall i :: |old(trace)| <= i < |trace| ==> trace[i].request == r
      ensures mapping == if r == ResourceRequest then old(mapping)
        else old(mapping) + AddedBetween(core, |old(trace)|, |trace|)
      ensures Follows(core, |old(trace)|, |trace|, mapping, old(mapping))
    {
      hide Follows;
      ghost var from := |trace|;
      var n: nat, recorded: nat := *, *;
      FollowsItself(core, from, from, mapping);
      while n > 0
        invariant old(trace) <= trace && errors == old(errors)
        invariant forall i :: |old(trace)| <= i < |trace| ==> trace[i].request == r
        invariant mapping == if r == ResourceRequest then old(mapping)
          else old(mapping) + AddedBetween(core, from, |trace|)
        invariant Follows(core, from, |trace|, mapping, old(mapping))
      {
        ghost var at, before := |trace|, mapping;
        var a := Call(r);
        FollowsLater(core, from, at, at + 1, mapping, old(mapping));
        if r != ResourceRequest {
          AddedNext(core, from, at, old(mapping));
          FollowsMore(core, at, at, mapping);
          mapping := mapping + a.added;
          FollowsAfter(core, from, at, at + 1, before, mapping, old(mapping));
        }
        n := n - 1;
      }
      errors := errors + seq(recorded, _ => "step failed");
      thrown := *;
    }

    // -------------------------------------------------------------------------
    // Proxy entities
    // -------------------------------------------------------------------------

    /** Makes sure every proxy of the new catalog is configured, edits each that has anything to edit, once and in
        order, and returns the proxies of the previous catalog that the new one does not have. It throws exactly
        when the configuring does or an edit is refused; at most twenty refusals are reported. */
    method ApplyProxyEntities(entities: seq<Proxy>, previous: seq<Proxy>)
      returns (thrown: bool, obsolete: seq<string>, ghost ready: nat, ghost stuck: bool)
      modifies `trace, `errors
      ensures old(trace) <= trace && old(errors) <= errors && AllGrounding(trace, |old(trace)|, |trace|)
      ensures |old(trace)| < ready <= |trace| && (!core(|old(trace)|).Ok() ==> thrown)
      ensures var missing := Unlisted(Usable(entities), core(|old(trace)|).listed);
        Ensured(core, trace[..ready], |old(trace)|, TargetIds(missing), LocalIds(missing), stuck)
      ensures stuck ==> thrown && ready == |trace| && errors == old(errors)
      ensures !stuck ==>
        var edits := Editable(Usable(entities));
        var refused := Refusals(core, ready, |trace|);
        && Edited(trace[..ready], trace, edits)
        && (thrown <==> refused > 0) && |errors| == |old(errors)| + (if refused < 20 then refused else 20)
      ensures Ordering.Distinct(obsolete)
      ensures !thrown ==> forall id :: id in obsolete <==> Superseded(id, entities, previous)
      ensures !thrown ==> ProxiesReady(core, trace, |old(trace)|, entities)
    {
      hide Known, Taken, Ensured, Lacks, ProxiesReady, AllGrounding, Edited, Superseded, Ordering.Distinct;
      ghost var start := |trace|;
      var descriptors := Usable(entities);
      thrown := EnsureConfigured(descriptors);
      ready, stuck := |trace|, thrown;
      EnsuredIsGrounding(core, trace, start, TargetIds(Unlisted(descriptors, core(start).listed)),
                         LocalIds(Unlisted(descriptors, core(start).listed)), thrown);
      ghost var configured := trace;
      assert trace[..ready] == configured;
      NoneTwice();
      if thrown { return true, [], ready, true; }
      var failures := EditProxies(descriptors);
      EditsAreGrounding(configured, trace, Editable(descriptors));
      GroundingJoin(configured, trace, start);
      assert trace[..ready] == configured;
      if failures > 0 {
        errors := errors + seq(if failures < 20 then failures else 20, _ => "Proxy entity");
        return true, [], ready, false;
      }
      EditsAreTaken(core, configured, trace, start, entities);
      SupersededExactly(entities, previous);
      return false, Membership.Collect([], OthersOf(previous, TargetIds(descriptors))), ready, false;
    }

    /** Sends one edit for each proxy with anything to edit, whatever becomes of the others. */
    method EditProxies(descriptors: seq<Proxy>) returns (failures: nat)
      modifies `trace
      ensures old(trace) <= trace && Edited(old(trace), trace, Editable(descriptors))
      ensures failures == Refusals(core, |old(trace)|, |trace|)
    {
      hide Edited;
      failures := 0;
      assert Edited(trace, trace, []) by { NoneEdited(trace); }
      for i := 0 to |descriptors|
        invariant old(trace) <= trace && Edited(old(trace), trace, Editable(descriptors[..i]))
        invariant failures == Refusals(core, |old(trace)|, |trace|)
      {
        EditableNext(descriptors, i);
        if descriptors[i].editable {
          EditNext(core, old(trace), trace, Editable(descriptors[..i]), descriptors[i].targetId, mapping);
          var patched := Call(PatchProxy(descriptors[i].targetId));
          if !patched.Ok() { failures := failures + 1; }
        } else {
          assert Editable(descriptors[..i]) + [] == Editable(descriptors[..i]);
        }
      }
      assert descriptors[..|descriptors|] == descriptors;
    }

    /** Configures the proxies that the Core does not list and waits until it does. */
    method EnsureConfigured(descriptors: seq<Proxy>) returns (thrown: bool)
      modifies `trace
      ensures old(trace) <= trace
      ensures var missing := Unlisted(descriptors, core(|old(trace)|).listed);
        Ensured(core, trace, |old(trace)|, TargetIds(missing), LocalIds(missing), thrown)
      ensures !thrown ==> forall d :: d in descriptors ==> Known(core, trace, |old(trace)|, d.targetId)
    {
      hide Known, Lacks, Awaited;
      ghost var start := |trace|;
      var listing := Call(ListEntities);
      if !listing.Ok() { return true; }
      var missing := Unlisted(descriptors, listing.listed);
      OthersAreListed(descriptors, listing.listed);
      thrown := false;
      if missing != [] {
        var configured := Call(Configure(LocalIds(missing)));
        if !configured.Ok() { return true; }
        thrown := AwaitConfigured(TargetIds(missing));
      }
      if !thrown {
        EnsuredIsKnown(core, trace, start, TargetIds(missing), LocalIds(missing));
        forall d | d in missing ensures Known(core, trace, start, d.targetId) { TargetThere(missing, d); }
      }
    }

    /** Polls until every id is listed, or as often as the deadline allows, whatever that is. */
    method AwaitConfigured(ids: seq<string>) returns (timedOut: bool)
      modifies `trace
      ensures old(trace) <= trace && Awaited(core, trace, |old(trace)|, ids, timedOut)
    {
      var polls: nat := *;
      while polls > 0
        invariant old(trace) <= trace
        invariant forall i: nat :: |old(trace)| <= i < |trace| ==>
          trace[i].request == ListEntities && core(i).Ok() && Lacks(core(i), ids)
      {
        var listing := Call(ListEntities);
        if !listing.Ok() { return true; }
        if forall i :: 0 <= i < |ids| ==> ids[i] in listing.listed { return false; }
        polls := polls - 1;
      }
      return true;
    }

    method EnsureActivityRelay() returns (thrown: bool)
      modifies `trace
      ensures old(trace) <= trace
      ensures var missing: seq<string> :=
          if "remote_sync.main.activity_relay" in core(|old(trace)|).listed then []
            else ["remote_sync.main.activity_relay"];
        Ensured(core, trace, |old(trace)|, missing, ["activity_relay"], thrown)
      ensures !thrown ==> Known(core, trace, |old(trace)|, Membership.RELAY_ENTITY_ID)
    {
      hide Known, Lacks, Awaited;
      ghost var start := |trace|;
      var ids := [Membership.RELAY_ENTITY_ID];
      var listing := Call(ListEntities);
      if !listing.Ok() { return true; }
      if Membership.RELAY_ENTITY_ID in listing.listed {
        EnsuredIsKnown(core, trace, start, [], ["activity_relay"]);
        return false;
      }
      var configured := Call(Configure(["activity_relay"]));
      if !configured.Ok() { return true; }
      thrown := AwaitConfigured(ids);
      if !thrown {
        EnsuredIsKnown(core, trace, start, ids, ["activity_relay"]);
        assert Known(core, trace, start, ids[0]);
      }
    }

    method PruneProxyEntities(ids: seq<string>)
      modifies `trace
      ensures old(trace) <= trace && |trace| == |old(trace)| + |ids|
      ensures forall i :: 0 <= i < |ids| ==> trace[|old(trace)| + i].request == DeleteProxy(ids[i])
    {
      for i := 0 to |ids|
        invariant old(trace) <= trace && |trace| == |old(trace)| + i
        invariant forall k :: 0 <= k < i ==> trace[|old(trace)| + k].request == DeleteProxy(ids[k])
      {
        var _ := Call(DeleteProxy(ids[i]));
      }
    }

    // -------------------------------------------------------------------------
    // Staging
    // -------------------------------------------------------------------------

    /** Asks the Core for a record, and for a macro also among the entities. */
    method Exists(section: Section, id: string) returns (thrown: bool, found: bool)
      modifies `trace
      ensures Grown(old(trace), trace) && AllAbout(trace, |old(trace)|, section)
      ensures !thrown && found ==> Found(core, trace, |old(trace)|, section, id)
      ensures !thrown && !found ==> Denied(core, trace, |old(trace)|, section, id)
    {
      ghost var start := |trace|;
      var a := Call(Probe(section, id));
      assert trace[start].request == Probe(section, id);
      if !a.status.Missing? { return !a.Ok(), a.Ok(); }
      if section == Activities {
        assert DeniedAt(core, trace, start, section, id);
        return false, false;
      }
      a := Call(ProbeEntity(id));
      assert trace[start].request == Probe(section, id) && trace[start + 1].request == ProbeEntity(id);
      if !a.status.Missing? { return !a.Ok(), a.Ok(); }
      assert DeniedAt(core, trace, start, section, id);
      return false, false;
    }

    /** The counterpart of one record: the stored one as long as the Core has it, else the one of the same id,
        else a new one from the renamed fields; "" when the Core does not create it. */
    method Locate(section: Section, item: Item) returns (thrown: bool, targetId: string)
      modifies `trace
      ensures Grown(old(trace), trace) && AllAbout(trace, |old(trace)|, section)
      ensures !thrown ==>
        Located(core, trace, |old(trace)|, section, item, KnownId(stored, section, item), NewPayload(item, mapping),
                targetId)
    {
      hide Found, Denied, Grown, Located, CreatedLast, NewPayload, AllAbout;
      ghost var start := |trace|;
      NothingGrown(trace);
      NothingAbout(trace, section);
      var known, payload := KnownId(stored, section, item), NewPayload(item, mapping);
      var found;
      if known != "" {
        thrown, found := Exists(section, known);
        if found { LocatedFirst(core, trace, start, section, item, known, payload); }
        if thrown || found { return thrown, known; }
      }
      ghost var missed := trace;
      thrown, found := Exists(section, item.sourceId);
      GrownTwice(old(trace), missed, trace);
      AboutJoin(missed, trace, start, section);
      if thrown { return true, ""; }
      if found {
        LocatedSecond(core, missed, trace, start, section, item, known, payload);
        return false, item.sourceId;
      }
      ghost var before := trace;
      var created := Call(Create(section, payload));
      OneMorePlain(old(trace), before, Sent(Create(section, payload), mapping));
      OneMoreAbout(before, start, Sent(Create(section, payload), mapping), section);
      LocatedThird(core, missed, before, start, section, item, known, payload, mapping);
      return false, if created.Ok() then created.id else "";
    }

    /** Finds or creates the counterpart of every record before any of them is filled in. Every record with an
        id is prepared under an id the Core told, mapped and remembered there, or reported. */
    method StageInternalEntities(section: Section, items: seq<Item>) returns (thrown: bool, prepared: seq<Prepared>)
      modifies `trace, `errors, `mapping, `stored
      ensures Grown(old(trace), trace) && AllAbout(trace, |old(trace)|, section) && old(errors) <= errors
      ensures AllTold(core, trace, |old(trace)|, section, items, prepared)
      ensures mapping == Bound(old(mapping), prepared) && stored == Remembered(old(stored), section, prepared)
      ensures !thrown ==> Accounted(prepared, items, |items|, errors)
      ensures !thrown ==> |prepared| + |errors| == |old(errors)| + Named(items)
    {
      hide Grown, Located, Told, AllTold, AllAbout, Accounted, Bound, Remembered;
      prepared := [];
      NothingGrown(trace);
      NothingAbout(trace, section);
      NothingPrepared(core, trace, |old(trace)|, section, items, errors);
      NothingBound(mapping, stored, section);
      for i := 0 to |items|
        invariant Grown(old(trace), trace) && AllAbout(trace, |old(trace)|, section) && old(errors) <= errors
        invariant AllTold(core, trace, |old(trace)|, section, items, prepared)
        invariant mapping == Bound(old(mapping), prepared) && stored == Remembered(old(stored), section, prepared)
        invariant Accounted(prepared, items, i, errors)
        invariant |prepared| + |errors| + Named(items[i..]) == |old(errors)| + Named(items)
      {
        assert items[i..][1..] == items[i + 1..];
        if items[i].sourceId == "" {
          AccountedNext(prepared, prepared, items, i, errors, errors);
          continue;
        }
        ghost var before := trace;
        var targetId;
        thrown, targetId := Locate(section, items[i]);
        GrownTwice(old(trace), before, trace);
        AboutJoin(before, trace, |old(trace)|, section);
        AllStayTold(core, before, |old(trace)|, trace, |old(trace)|, section, items, prepared);
        if thrown { return; }
        if targetId == "" {
          AccountedNext(prepared, prepared, items, i, errors, errors + ["Create " + items[i].sourceId]);
          errors := errors + ["Create " + items[i].sourceId];
        } else {
          var p := Prepared(items[i], targetId);
          LocatedIsTold(core, trace, |before|, section, items[i], KnownId(stored, section, items[i]),
                        NewPayload(items[i], mapping), targetId);
          OneTold(core, trace, |before|, |old(trace)|, section, items, prepared, p);
          BoundNext(old(mapping), old(stored), section, prepared, p);
          AccountedNext(prepared, prepared + [p], items, i, errors, errors);
          stored := stored[(section, items[i].sourceId) := targetId];
          mapping := mapping[items[i].sourceId := targetId];
          prepared := prepared + [p];
        }
      }
      thrown := false;
    }

    // -------------------------------------------------------------------------
    // Filling in
    // -------------------------------------------------------------------------

    /** Sends the fields of one record. An activity gets its members first and then, only when the Core took
        them, the options that refer to them. */
    method UpdateInternalEntity(section: Section, targetId: string, update: seq<Field>, buttons: Option<Json>,
                                ui: Option<Json>)
      returns (thrown: bool)
      modifies `trace
      ensures update == [] ==> !thrown && trace == old(trace)
      ensures update != [] && (section == Macros || !HasOptions(update)) ==>
        trace == old(trace) + [Sent(PatchPlain(section, targetId, update), mapping)]
          && thrown == !core(|old(trace)|).Ok()
      ensures section == Activities && HasOptions(update) ==>
        var options := Get(update, "options").value.fields;
        var ids := Membership.MembershipIds(Obj(options), buttons, ui);
        var first := Sent(PatchMembership(targetId, Without(update, "options"), ids), mapping);
        var second := Sent(PatchContent(targetId, options, ids), mapping);
        if core(|old(trace)|).Ok() then trace == old(trace) + [first, second] && thrown == !core(|old(trace)| + 1).Ok()
        else trace == old(trace) + [first] && thrown
    {
      if update == [] { return false; }
      if section == Macros || !HasOptions(update) {
        var a := Call(PatchPlain(section, targetId, update));
        return !a.Ok();
      }
      var options := Get(update, "options").value.fields;
      var membership := Membership.ActivityEntityIds(Obj(options), buttons, ui);
      var first := PatchMembership(targetId, Without(update, "options"), membership);
      var a := Call(first);
      if !a.Ok() { return true; }
      a := Call(PatchContent(targetId, options, membership));
      assert old(trace) + [Sent(first, mapping)] + [Sent(PatchContent(targetId, options, membership), mapping)]
        == old(trace) + [Sent(first, mapping), Sent(PatchContent(targetId, options, membership), mapping)];
      return !a.Ok();
    }

    /** Deletes the recorded counterparts that the manifest no longer has; what the Core does not delete stays
        recorded. */
    method PruneMapped(section: Section, current: seq<Item>)
      modifies `trace, `stored
      ensures Grown(old(trace), trace) && AllAbout(trace, |old(trace)|, section)
      ensures forall key :: key in stored ==> key in old(stored) && stored[key] == old(stored)[key]
      ensures forall key :: key in old(stored) && key !in stored ==>
        Obsolete(key, section, current) && Deleted(core, trace, |old(trace)|, Prune(section, old(stored)[key]))
      ensures forall key :: key in stored && Obsolete(key, section, current) ==>
        Retained(core, trace, |old(trace)|, Prune(section, stored[key]))
    {
      hide Deleted, Retained, Obsolete, Grown, AllAbout;
      NothingGrown(trace);
      NothingAbout(trace, section);
      var left := stored.Keys;
      while left != {}
        invariant left <= stored.Keys && Grown(old(trace), trace) && AllAbout(trace, |old(trace)|, section)
        invariant forall key :: key in stored ==> key in old(stored) && stored[key] == old(stored)[key]
        invariant forall key :: key in old(stored) && key !in stored ==>
          Obsolete(key, section, current) && Deleted(core, trace, |old(trace)|, Prune(section, old(stored)[key]))
        invariant forall key :: key in stored && key !in left && Obsolete(key, section, current) ==>
          Retained(core, trace, |old(trace)|, Prune(section, stored[key]))
        decreases left
      {
        var key :| key in left;
        left := left - {key};
        if IsObsolete(key, section, current) {
          var a := CallPrune(section, stored[key], old(trace));
          if Gone(a) { stored := stored - {key}; }
        }
      }
    }

    method CallPrune(section: Section, id: string, ghost from: Trace) returns (a: Answer)
      requires Grown(from, trace) && AllAbout(trace, |from|, section)
      modifies `trace
      ensures Grown(from, trace) && AllAbout(trace, |from|, section)
      ensures if Gone(a) then Deleted(core, trace, |from|, Prune(section, id))
        else Retained(core, trace, |from|, Prune(section, id))
      ensures forall q :: Deleted(core, old(trace), |from|, q) ==> Deleted(core, trace, |from|, q)
      ensures forall q :: Retained(core, old(trace), |from|, q) ==> Retained(core, trace, |from|, q)
    {
      hide Deleted, Retained, AllAbout;
      ghost var s := Sent(Prune(section, id), mapping);
      Answered(core, trace, |from|, s);
      OneMorePlain(from, trace, s);
      OneMoreAbout(trace, |from|, s, section);
      a := Call(Prune(section, id));
    }

    predicate IsObsolete(key: (Section, string), section: Section, current: seq<Item>)
      ensures IsObsolete(key, section, current) <==> Obsolete(key, section, current)
    {
      key.0 == section && forall i :: 0 <= i < |current| ==> current[i].sourceId != key.1
    }

    /** Sends the rewritten fields of one prepared record. */
    method UpdateOne(section: Section, p: Prepared, buttons: Option<Json>, ui: Option<Json>, ghost start: nat,
                     ghost base: Mapping)
      returns (thrown: bool)
      requires start <= |trace| && Follows(core, start, |trace|, mapping, base)
      requires buttons == RewrittenMaybe(p.item.buttons, mapping) && ui == RewrittenMaybe(OrEmpty(p.item.ui), mapping)
      modifies `trace
      ensures old(trace) <= trace && Doing(core, trace, start, |old(trace)|, section, p, base)
      ensures thrown ==> Stops(core, trace, |old(trace)|)
      ensures !thrown ==> NoFailure(core, trace, |old(trace)|, |trace|)
      ensures !thrown ==> Updated(core, trace, |old(trace)|, start, section, p, base)
    {
      hide RewrittenMaybe, UpdatePayload, Membership.MembershipIds, Membership.ActivityRelayPayload, Follows, Doing,
           Stops, NoFailure, Updated;
      var payload := UpdatePayload(p.item, mapping);
      if section == Activities {
        var update := Membership.ActivityRelayPayload(payload, p.item.sourceId);
        Membership.RelayReplacesSequences(payload, p.item.sourceId, "");
        thrown := UpdateInternalEntity(section, p.targetId, update, buttons, ui);
        ActivitySent(core, old(trace), trace, start, p, mapping, base);
      } else {
        thrown := UpdateInternalEntity(section, p.targetId, Membership.FieldsOf(Some(payload)), buttons, ui);
        MacroSent(core, old(trace), trace, start, p, mapping, base);
      }
    }

    /** Buttons by PATCH, then by POST; a Core that knows neither is only warned about. */
    method UpdateButtons(section: Section, p: Prepared, payload: Json, ghost start: nat, ghost base: Mapping)
      returns (thrown: bool)
      requires start <= |trace| && Follows(core, start, |trace|, mapping, base)
      requires p.item.buttons.Some? && payload == ButtonsOf(p, mapping)
      modifies `trace
      ensures old(trace) <= trace && Doing(core, trace, start, |old(trace)|, section, p, base)
      ensures if thrown then Stops(core, trace, |old(trace)|)
        else NoFailure(core, trace, |old(trace)|, |trace|) && ButtonsSettled(core, trace, |old(trace)|, section, p)
    {
      hide Follows, Doing, Stops, NoFailure, ButtonsSettled, ButtonsOf;
      var a := Call(PatchButtons(section, p.targetId, payload));
      thrown := a.status.Broken?;
      if a.AnotherWay() {
        var b := Call(PostButtons(section, p.targetId, payload));
        thrown := b.status.Broken? || b.status.Invalid? || (!b.Ok() && a.status.Invalid?);
        assert trace == old(trace) + [Sent(PatchButtons(section, p.targetId, payload), mapping),
                                      Sent(PostButtons(section, p.targetId, payload), mapping)];
      }
      ButtonsSent(core, old(trace), trace, start, section, p, mapping, base);
    }

    /** Sends one request about the pages of a record. */
    method CallPage(section: Section, p: Prepared, r: Request, ghost from: nat, ghost start: nat, ghost base: Mapping)
      returns (a: Answer)
      requires start <= from <= |trace| && Follows(core, start, |trace|, mapping, base)
      requires p.item.ui.Some? && r in {ReadUi(section, p.targetId), EditUi(section, p.targetId)}
      requires Doing(core, trace, start, from, section, p, base) && NoFailure(core, trace, from, |trace|)
      modifies `trace
      ensures trace == old(trace) + [Sent(r, mapping)] && a == core(|old(trace)|)
        && Follows(core, start, |trace|, mapping, base)
      ensures Doing(core, trace, start, from, section, p, base)
      ensures if r.ReadUi? && (a.status.Invalid? || a.status.Broken?) then Stops(core, trace, from)
        else NoFailure(core, trace, from, |trace|) && (r.ReadUi? ==> PagesAt(core, trace, |old(trace)|, section, p))
    {
      hide Follows, Doing, Stops, NoFailure;
      PageSent(core, trace, from, start, section, p, mapping, base, r);
      FollowsLater(core, start, |trace|, |trace| + 1, mapping, base);
      a := Call(r);
    }

    /** Deletes or creates any number of pages; what the answers tell of new pages comes into the mapping. */
    method EditPages(section: Section, p: Prepared, ghost from: nat, ghost start: nat, ghost base: Mapping)
      requires start <= from <= |trace| && Follows(core, start, |trace|, mapping, base) && p.item.ui.Some?
      requires Doing(core, trace, start, from, section, p, base) && NoFailure(core, trace, from, |trace|)
      modifies `trace, `mapping
      ensures old(trace) <= trace && Follows(core, start, |trace|, mapping, base)
      ensures Doing(core, trace, start, from, section, p, base) && NoFailure(core, trace, from, |trace|)
      ensures mapping == old(mapping) + AddedBetween(core, |old(trace)|, |trace|)
    {
      hide Follows, Doing, NoFailure, Stops;
      var n: nat := *;
      while n > 0
        invariant old(trace) <= trace && Follows(core, start, |trace|, mapping, base)
        invariant Doing(core, trace, start, from, section, p, base) && NoFailure(core, trace, from, |trace|)
        invariant mapping == old(mapping) + AddedBetween(core, |old(trace)|, |trace|)
      {
        ghost var at, before := |trace|, mapping;
        var a := CallPage(section, p, EditUi(section, p.targetId), from, start, base);
        AddedNext(core, |old(trace)|, at, old(mapping));
        FollowsMore(core, at, at, mapping);
        mapping := mapping + a.added;
        FollowsAfter(core, start, at, at + 1, before, mapping, base);
        n := n - 1;
      }
    }

    /** Deletes any number of blank pages. */
    method RemoveBlankPages(section: Section, p: Prepared, ghost from: nat, ghost start: nat, ghost base: Mapping)
      requires start <= from <= |trace| && Follows(core, start, |trace|, mapping, base) && p.item.ui.Some?
      requires Doing(core, trace, start, from, section, p, base) && NoFailure(core, trace, from, |trace|)
      modifies `trace
      ensures old(trace) <= trace && Follows(core, start, |trace|, mapping, base)
      ensures Doing(core, trace, start, from, section, p, base) && NoFailure(core, trace, from, |trace|)
    {
      hide Follows, Doing, NoFailure, Stops;
      var n: nat := *;
      while n > 0
        invariant old(trace) <= trace && Follows(core, start, |trace|, mapping, base)
        invariant Doing(core, trace, start, from, section, p, base) && NoFailure(core, trace, from, |trace|)
      {
        var _ := CallPage(section, p, EditUi(section, p.targetId), from, start, base);
        n := n - 1;
      }
    }

    /** Replaces the pages of one record: reads them, deletes and creates some, which may tell the ids of new
        pages, reads them `again` and deletes blank ones. Only a failed reading stops it. */
    method ReplaceUi(section: Section, p: Prepared, ghost start: nat, ghost base: Mapping)
      returns (thrown: bool, ghost again: nat)
      requires start <= |trace| && Follows(core, start, |trace|, mapping, base) && p.item.ui.Some?
      modifies `trace, `mapping
      ensures old(trace) <= trace && Doing(core, trace, start, |old(trace)|, section, p, base)
      ensures if thrown then Stops(core, trace, |old(trace)|)
        else NoFailure(core, trace, |old(trace)|, |trace|) && PagesSettled(core, trace, |old(trace)|, section, p)
      ensures !thrown ==> PagesReplaced(core, trace, |old(trace)|, again, section, p) && trace[again].mapping == mapping
      ensures Follows(core, start, |trace|, mapping, base)
    {
      hide Follows, Doing, NoFailure, Stops;
      ghost var from := |trace|;
      again := from;
      NothingDone(core, trace, start, section, p, base);
      var a := CallPage(section, p, ReadUi(section, p.targetId), from, start, base);
      if a.status.Invalid? || a.status.Broken? { return true, from; }
      ghost var first := trace;
      EditPages(section, p, from, start, base);
      again := |trace|;
      var b := CallPage(section, p, ReadUi(section, p.targetId), from, start, base);
      if b.status.Invalid? || b.status.Broken? { return true, again; }
      ghost var read := trace;
      RemoveBlankPages(section, p, from, start, base);
      TwoReadings(core, first, read, trace, from, again, section, p);
      return false, again;
    }

    /** Buttons and pages. */
    method ReplaceExtras(section: Section, p: Prepared, buttons: Option<Json>, ui: Option<Json>, ghost start: nat,
                         ghost base: Mapping)
      returns (thrown: bool)
      requires start <= |trace| && Follows(core, start, |trace|, mapping, base)
      requires buttons == RewrittenMaybe(p.item.buttons, mapping) && ui == RewrittenMaybe(OrEmpty(p.item.ui), mapping)
      modifies `trace, `mapping
      ensures old(trace) <= trace && Doing(core, trace, start, |old(trace)|, section, p, base)
      ensures if thrown then Stops(core, trace, |old(trace)|)
        else NoFailure(core, trace, |old(trace)|, |trace|) && ButtonsSettled(core, trace, |old(trace)|, section, p)
             && PagesSettled(core, trace, |old(trace)|, section, p)
      ensures Follows(core, start, |trace|, mapping, base)
    {
      hide Follows, Doing, NoFailure, Stops, ButtonsSettled, PagesSettled;
      thrown := false;
      NothingDone(core, trace, start, section, p, base);
      NothingToSettle(core, trace, |trace|, section, p);
      if buttons.Some? {
        thrown := UpdateButtons(section, p, buttons.value, start, base);
        FollowsLater(core, start, |old(trace)|, |trace|, mapping, base);
        if thrown { return; }
      }
      ghost var buttoned := trace;
      if ui.Some? {
        ghost var again;
        thrown, again := ReplaceUi(section, p, start, base);
        DoingJoin(core, buttoned, trace, start, |old(trace)|, section, p, base);
        if thrown {
          StopsJoin(core, buttoned, trace, |old(trace)|);
        } else {
          NoFailureJoin(core, buttoned, trace, |old(trace)|);
        }
      }
      ButtonsStay(core, buttoned, |old(trace)|, trace, |old(trace)|, section, p);
      PagesStay(core, trace, |buttoned|, trace, |old(trace)|, section, p);
      NothingToSettle(core, trace, |old(trace)|, section, p);
    }

    /** Fills in one prepared record. */
    method FinishOne(section: Section, p: Prepared, ghost start: nat, ghost base: Mapping) returns (thrown: bool)
      requires start <= |trace| && Follows(core, start, |trace|, mapping, base)
      modifies `trace, `mapping
      ensures old(trace) <= trace && Doing(core, trace, start, |old(trace)|, section, p, base)
      ensures thrown ==> Stops(core, trace, |old(trace)|)
      ensures !thrown ==> NoFailure(core, trace, |old(trace)|, |trace|)
      ensures !thrown ==> Finished(core, trace, |old(trace)|, start, section, p, base)
      ensures Follows(core, start, |trace|, mapping, base)
    {
      hide Follows, Doing, NoFailure, Stops, ButtonsSettled, PagesSettled, Updated;
      var buttons := RewrittenMaybe(p.item.buttons, mapping);
      var ui := RewrittenMaybe(OrEmpty(p.item.ui), mapping);
      thrown := UpdateOne(section, p, buttons, ui, start, base);
      FollowsLater(core, start, |old(trace)|, |trace|, mapping, base);
      if thrown { return; }
      ghost var updated := trace;
      thrown := ReplaceExtras(section, p, buttons, ui, start, base);
      DoingJoin(core, updated, trace, start, |old(trace)|, section, p, base);
      if thrown {
        StopsJoin(core, updated, trace, |old(trace)|);
      } else {
        NoFailureJoin(core, updated, trace, |old(trace)|);
        FinishedStays(core, updated, |old(trace)|, trace, |old(trace)|, start, section, p, base);
        FinishedStays(core, trace, |updated|, trace, |old(trace)|, start, section, p, base);
      }
    }

    /** Fills in the prepared records; each failure is recorded and does not stop the others, so that every one of them
        is filled in or stopped at a failure of its own. */
    method FinishInternalEntities(section: Section, items: seq<Item>, ghost plan: Plan, prepared: seq<Prepared>,
                                  ghost start: nat, ghost base: Mapping)
      requires start <= |trace| && Follows(core, start, |trace|, mapping, base)
      requires prepared == PlanFor(plan, section) && Ruled(core, trace, start, plan, base)
      modifies `trace, `errors, `mapping, `stored
      ensures old(trace) <= trace && Ruled(core, trace, start, plan, base) && Busy(trace, |old(trace)|, |trace|)
      ensures AllAbout(trace, |old(trace)|, section)
      ensures old(errors) <= errors && |errors| == |old(errors)| + Failures(core, trace, |old(trace)|, |trace|)
      ensures AllSettled(core, trace, |old(trace)|, start, section, prepared, base)
      ensures errors == old(errors) ==> AllFinished(core, trace, |old(trace)|, start, section, prepared, base)
      ensures Follows(core, start, |trace|, mapping, base)
    {
      hide Follows, Doing, NoFailure, Stops, Ruled, Busy, Grown, Finished, AllFinished, AllAbout,
           AllSettled;
      ghost var from := |trace|;
      NothingAbout(trace, section);
      NothingGrown(trace);
      GrownIsBusy(trace, trace);
      NoneFinished(core, trace, from, start, section, base);
      NoneSettled(core, trace, from, start, section, base);
      for i := 0 to |prepared|
        invariant old(trace) <= trace && Ruled(core, trace, start, plan, base) && Busy(trace, from, |trace|)
        invariant AllAbout(trace, from, section)
        invariant old(errors) <= errors && |errors| == |old(errors)| + Failures(core, trace, from, |trace|)
        invariant AllSettled(core, trace, from, start, section, prepared[..i], base)
        invariant errors == old(errors) ==> AllFinished(core, trace, from, start, section, prepared[..i], base)
        invariant Follows(core, start, |trace|, mapping, base)
      {
        ghost var before := trace;
        var thrown := FinishOne(section, prepared[i], start, base);
        RuledDoing(core, before, trace, start, plan, base, section, prepared[i]);
        DoingIsBusy(core, trace, start, |before|, section, prepared[i], base);
        DoingIsAbout(core, trace, start, |before|, section, prepared[i], base);
        AboutJoin(before, trace, from, section);
        BusyJoin(before, trace, from);
        FailuresJoin(core, before, trace, from, |before|, |trace|);
        OneSettled(core, before, trace, from, start, section, prepared, i, base);
        if thrown {
          OneFailed(core, trace, |before|);
          errors := errors + ["Update " + prepared[i].item.sourceId];
        } else {
          NoneFailed(core, trace, |before|, |trace|);
          if errors == old(errors) { OneFinished(core, before, trace, from, start, section, prepared, i, base); }
        }
      }
      assert prepared[..|prepared|] == prepared;
      if prune {
        ghost var before := trace;
        PruneMapped(section, items);
        AboutJoin(before, trace, from, section);
        AllStaySettled(core, before, from, trace, from, start, section, prepared, base);
        FinishedPruned(core, before, trace, from, start, section, plan, prepared, base);
        FollowsLater(core, start, |before|, |trace|, mapping, base);
      }
    }

    // -------------------------------------------------------------------------
    // The run
    // -------------------------------------------------------------------------

    /** The relay where there are activities, then resources and docks. */
    method PrepareGround(manifest: Manifest) returns (thrown: bool, ghost ground: Trace)
      modifies `trace, `errors, `mapping
      ensures Grown(old(trace), trace) && old(errors) <= errors
      ensures Follows(core, |old(trace)|, |trace|, mapping, old(mapping))
      ensures old(trace) <= ground <= trace && AllGrounding(ground, |old(trace)|, |ground|)
      ensures AllWithin(trace, |ground|, manifest)
      ensures "activities" !in manifest.sections || manifest.activities == [] ==> ground == old(trace)
      ensures (thrown && trace == ground) || RelayReady(core, ground, |old(trace)|, manifest)
    {
      hide Grown, Follows, Known, Ensured, AllGrounding, AllWithin;
      ghost var from := |trace|;
      thrown := false;
      NoneGrounding(trace);
      if "activities" in manifest.sections && manifest.activities != [] {
        thrown := EnsureActivityRelay();
        EnsuredIsGrounding(core, trace, from,
          if "remote_sync.main.activity_relay" in core(from).listed then [] else ["remote_sync.main.activity_relay"],
          ["activity_relay"], thrown);
      }
      GroundingIsGrown(old(trace), trace);
      ground := trace;
      FollowsItself(core, from, from, mapping);
      if !thrown && "resources" in manifest.sections {
        thrown := Opaque(ResourceRequest);
        GrownBy(old(trace), ground, trace, ResourceRequest);
      }
      ghost var supplied := trace;
      FollowsLater(core, from, from, |trace|, mapping, old(mapping));
      if !thrown && "docks" in manifest.sections {
        thrown := Opaque(DockRequest);
        GrownBy(old(trace), supplied, trace, DockRequest);
        FollowsOn(core, from, |supplied|, |supplied|, |trace|, old(mapping), mapping, old(mapping));
      }
      ResourcesAndDocks(trace, |ground|, |supplied|, manifest);
    }

    /** The staging of macros and of activities. */
    method Stage(manifest: Manifest) returns (thrown: bool, plan: Plan)
      modifies `trace, `errors, `mapping, `stored
      ensures Grown(old(trace), trace) && AllWithin(trace, |old(trace)|, manifest) && old(errors) <= errors
      ensures Planned(core, trace, |old(trace)|, manifest, plan) && mapping == Base(old(mapping), plan)
      ensures !thrown && errors == [] ==> AllPrepared(manifest, plan)
    {
      hide Grown, AllTold, AllAbout, AllWithin, Accounted, AllPrepared, Bound;
      thrown, plan := false, Plan([], []);
      NothingGrown(trace);
      NothingWithin(trace, manifest);
      NoPlan(core, trace, |old(trace)|, manifest);
      NothingBound(mapping, stored, Macros);
      if "macros" in manifest.sections {
        var macros;
        thrown, macros := StageInternalEntities(Macros, manifest.macros);
        plan := plan.(macros := macros);
        AboutIsWithin(trace, |old(trace)|, Macros, manifest);
        NothingBound(mapping, stored, Macros);
        if thrown {
          NothingPrepared(core, trace, |old(trace)|, Activities, manifest.activities, errors);
          PlanIs(core, trace, |old(trace)|, manifest, plan);
          return;
        }
      } else {
        NothingPrepared(core, trace, |old(trace)|, Macros, manifest.macros, errors);
      }
      ghost var staged := trace;
      ghost var halfway := errors;
      if "activities" in manifest.sections {
        var activities;
        thrown, activities := StageInternalEntities(Activities, manifest.activities);
        plan := plan.(activities := activities);
        GrownTwice(old(trace), staged, trace);
        AboutIsWithin(trace, |staged|, Activities, manifest);
        WithinJoin(staged, trace, |old(trace)|, manifest);
        AllStayTold(core, trace, |staged|, trace, |old(trace)|, Activities, manifest.activities, activities);
      } else {
        NothingPrepared(core, trace, |old(trace)|, Activities, manifest.activities, errors);
      }
      AllStayTold(core, staged, |old(trace)|, trace, |old(trace)|, Macros, manifest.macros, plan.macros);
      PlanIs(core, trace, |old(trace)|, manifest, plan);
      if !thrown && errors == [] { AccountedIsPrepared(manifest, plan); }
    }

    /** Everything up to the point where groups and profiles may follow. The run began at `start`, and nothing was
        filled in before. `ready` tells whether groups and profiles may follow. */
    method ApplyDependencies(manifest: Manifest, ghost start: nat)
      returns (thrown: bool, ready: bool, ghost plan: Plan, ghost ground: Trace)
      requires start <= |trace| && Grown(trace[..start], trace)
      modifies `trace, `errors, `mapping, `stored
      ensures old(trace) <= trace && old(errors) <= errors
      ensures Built(core, trace, start, !thrown && errors == [], manifest, plan, Base(old(mapping), plan))
      ensures !thrown ==> (ready <==> NoFailure(core, trace, start, |trace|))
      ensures !thrown ==> EverySettled(core, trace, start, manifest, plan, Base(old(mapping), plan))
      ensures old(trace) <= ground <= trace && AllGrounding(ground, |old(trace)|, |ground|)
      ensures AllWithin(trace, |ground|, manifest)
      ensures (thrown && trace == ground) || RelayReady(core, ground, |old(trace)|, manifest)
    {
      hide Grown, Follows, Planned, Ruled, Busy, Complete, AllFinished, NoFailure, Base, AllPrepared, AllWithin,
           EverySettled, RelayReady, AllGrounding;
      ghost var before := trace[..start];
      ready, plan := false, Plan([], []);
      ghost var entered := trace;
      thrown, ground := PrepareGround(manifest);
      GrownTwice(before, entered, trace);
      ghost var supplied, grounded := trace, mapping;
      if thrown {
        NoPlan(core, trace, start, manifest);
        StillGrown(before, trace, start);
        GrownIsBuilt(core, trace, start, manifest, plan, Base(old(mapping), plan));
        return;
      }
      var prepared;
      thrown, prepared := Stage(manifest);
      plan := prepared;
      GrownTwice(before, supplied, trace);
      WithinJoin(supplied, trace, |ground|, manifest);
      StillGrown(before, trace, start);
      PlannedEarlier(core, trace, |supplied|, start, manifest, plan);
      GrownIsBuilt(core, trace, start, manifest, plan, Base(old(mapping), plan));
      if thrown { return; }
      BaseFollows(core, start, |entered|, |supplied|, |trace|, grounded, old(mapping), plan);
      ghost var staged := trace;
      ready := Finish(manifest, prepared, start, Base(old(mapping), plan));
      WithinJoin(staged, trace, |ground|, manifest);
    }

    /** Fills in the macros, then the activities. */
    method Finish(manifest: Manifest, plan: Plan, ghost start: nat, ghost base: Mapping) returns (ready: bool)
      requires Built(core, trace, start, false, manifest, plan, base) && NoFailure(core, trace, start, |trace|)
      requires Follows(core, start, |trace|, mapping, base)
      requires errors == [] ==> AllPrepared(manifest, plan)
      modifies `trace, `errors, `mapping, `stored
      ensures old(trace) <= trace && AllWithin(trace, |old(trace)|, manifest) && old(errors) <= errors
      ensures Built(core, trace, start, errors == [], manifest, plan, base)
      ensures ready <==> NoFailure(core, trace, start, |trace|)
      ensures EverySettled(core, trace, start, manifest, plan, base)
    {
      hide Follows, Planned, Ruled, Busy, Complete, AllFinished, NoFailure, AllPrepared, AllAbout, AllWithin,
           AllSettled, EverySettled;
      var dependencyErrorStart := |errors|;
      ghost var staged := trace;
      NothingWithin(trace, manifest);
      if "macros" in manifest.sections {
        FinishInternalEntities(Macros, manifest.macros, plan, plan.macros, start, base);
        AboutIsWithin(trace, |staged|, Macros, manifest);
        BusyJoin(staged, trace, start);
      }
      ghost var half := trace;
      ghost var halfway := errors;
      assert |halfway| == |old(errors)| + Failures(core, half, |staged|, |half|);
      if "activities" in manifest.sections {
        FinishInternalEntities(Activities, manifest.activities, plan, plan.activities, start, base);
        AboutIsWithin(trace, |half|, Activities, manifest);
        WithinJoin(half, trace, |staged|, manifest);
        BusyJoin(half, trace, start);
      }
      assert |errors| == |halfway| + Failures(core, trace, |half|, |trace|);
      ready := |errors| == dependencyErrorStart;
      ReadyIsClean(core, staged, half, trace, start);
      BothSettled(core, staged, half, trace, start, manifest, plan, base);
      PlannedStays(core, staged, trace, start, manifest, plan);
      if errors == [] { BothFinished(core, staged, half, trace, start, manifest, plan, base); }
    }

    /** Groups and profiles, and only when every activity and macro could be filled in. */
    method ApplyDependents(manifest: Manifest, ready: bool) returns (thrown: bool)
      modifies `trace, `errors, `mapping
      ensures old(trace) <= trace && old(errors) <= errors
      ensures forall i :: |old(trace)| <= i < |trace| ==> Late(trace[i].request) && Within(trace[i].request, manifest)
      ensures !ready ==> trace == old(trace) && !thrown
    {
      hide Follows, Within;
      thrown := false;
      GroupsAndProfiles(manifest);
      if ready && "activity_groups" in manifest.sections {
        thrown := Opaque(GroupRequest);
        if thrown { return; }
      }
      if ready && "profiles" in manifest.sections {
        thrown := Opaque(ProfileRequest);
      }
    }

    /** The proxies, and everything up to the point where groups and profiles may follow. */
    method BuildUp(manifest: Manifest, catalog: Catalog, previous: seq<Proxy>)
      returns (thrown: bool, ready: bool, obsolete: seq<string>, ghost plan: Plan, ghost ground: Trace)
      modifies `trace, `errors, `mapping, `stored
      ensures old(trace) <= trace && |trace| > |old(trace)| && old(errors) <= errors
      ensures !core(|old(trace)|).Ok() ==> thrown
      ensures Built(core, trace, |old(trace)|, !thrown && errors == [], manifest, plan, Base(catalog.mapping, plan))
      ensures !thrown ==> (ready <==> NoFailure(core, trace, |old(trace)|, |trace|))
      ensures !thrown ==> EverySettled(core, trace, |old(trace)|, manifest, plan, Base(catalog.mapping, plan))
      ensures !thrown ==> forall id :: id in obsolete <==> Superseded(id, catalog.entities, previous)
      ensures Ordering.Distinct(obsolete)
      ensures old(trace) <= ground <= trace && AllGrounding(ground, |old(trace)|, |ground|)
      ensures AllWithin(trace, |ground|, manifest)
      ensures (thrown && trace == ground) || (ProxiesReady(core, ground, |old(trace)|, catalog.entities)
        && RelayReady(core, ground, |old(trace)|, manifest))
    {
      hide Grown, Built, NoFailure, Superseded, Base, Planned, Ordering.Distinct, AllGrounding, AllWithin, ProxiesReady,
           EverySettled, RelayReady, Ensured, Edited;
      ghost var start := |trace|;
      mapping := catalog.mapping;
      ghost var configured, stuck;
      thrown, obsolete, configured, stuck := ApplyProxyEntities(catalog.entities, previous);
      GroundingIsGrown(old(trace), trace);
      ghost var proxied := trace;
      ready, plan, ground := false, Plan([], []), trace;
      assert trace[..start] == old(trace);
      if thrown {
        NoPlan(core, trace, start, manifest);
        GrownIsBuilt(core, trace, start, manifest, plan, Base(catalog.mapping, plan));
        NothingWithin(trace, manifest);
        return;
      }
      thrown, ready, plan, ground := ApplyDependencies(manifest, start);
      GroundingJoin(proxied, ground, start);
      StillReady(core, proxied, start, ground, start, manifest, catalog.entities);
      StillReady(core, ground, |proxied|, ground, start, manifest, catalog.entities);
    }

    /** One run. */
    method ApplySnapshot(manifest: Manifest, catalog: Catalog, previous: seq<Proxy>) returns (thrown: bool)
      modifies `trace, `errors, `mapping, `stored
      ensures old(trace) <= trace && |trace| > |old(trace)| && old(errors) <= errors
      ensures !core(|old(trace)|).Ok() ==> thrown
      ensures OneRun(core, trace, |old(trace)|, !thrown && errors == [], prune, manifest, catalog, previous)
    {
      hide Grown, Built, NoFailure, Late, Superseded, Base, Planned, Ordering.Distinct, OneRun, Within, AllGrounding,
           AllWithin, ProxiesReady, RelayReady, WellFounded, EverySettled;
      ghost var start := |trace|;
      var ready, obsolete;
      ghost var plan, ground;
      thrown, ready, obsolete, plan, ground := BuildUp(manifest, catalog, previous);
      ghost var built, fine := trace, !thrown && errors == [];
      if !thrown { thrown := ApplyDependents(manifest, ready); }
      ghost var settled, done := trace, !thrown && errors == [];
      var deleted := if !thrown && prune && errors == [] then obsolete else [];
      NoneTwice();
      PruneProxyEntities(deleted);
      LastAreWithin(built, settled, trace, |ground|, manifest, deleted);
      assert deleted == [] ==> trace == settled;
      StandsOn(core, ground, trace, start, done, manifest, catalog.entities);
      BuiltLess(core, built, start, fine, done, manifest, plan, Base(catalog.mapping, plan));
      RunEnds(core, built, settled, trace, start, done, prune, manifest, catalog, previous, plan, deleted);
    }

    /** Keeps the Core awake during the run if it can, and runs once more when a run under the inhibitor throws. */
    method ApplyAwake(manifest: Manifest, catalog: Catalog, previous: seq<Proxy>)
      returns (thrown: bool, ghost runs: Runs)
      requires errors == []
      modifies `trace, `errors, `mapping, `stored
      ensures old(trace) <= trace && old(errors) <= errors
      ensures Arranged(core, trace, |old(trace)|, useInhibitor, runs)
      ensures runs.second == |trace| ==> thrown == runs.threw
      ensures OneRun(core, trace[..runs.end], runs.first, runs.second == |trace| && !thrown && errors == [], prune,
                     manifest, catalog, previous)
      ensures runs.second < |trace| ==>
        OneRun(core, trace, runs.second, !thrown && errors == [], prune, manifest, catalog, previous)
    {
      hide OneRun;
      var awake := false;
      if useInhibitor {
        var inhibited := Call(Inhibit);
        awake := inhibited.Ok();
      }
      ghost var first := |trace|;
      thrown := ApplySnapshot(manifest, catalog, previous);
      ghost var ran, threw := trace, thrown;
      if awake {
        var released := Call(Release);
      }
      runs := Runs(first, |ran|, |trace|, threw);
      if awake && thrown { thrown := ApplySnapshot(manifest, catalog, previous); }
      assert trace[..|ran|] == ran;
    }

    /** A whole operation. A result in the cache answers it; otherwise the snapshot is applied, once more when the
        first run throws while the Core is kept awake, and a success goes into the cache. The last run was done,
        without a throw or an error, exactly when the report is a success. */
    method Apply(manifest: Manifest, catalog: Catalog, previous: seq<Proxy>, started: int, finished: int)
      returns (report: Report, ghost runs: Runs)
      modifies this, operationCache
      ensures old(trace) <= trace
      ensures var kept :=
        Cache.Pruned(old(operationCache.data), started - operationCache.ttlMs, operationCache.maxEntries);
        match Cache.Find(kept, manifest.operationId)
        case Some(cached) =>
          report == cached.(duplicate := true) && trace == old(trace) && operationCache.data == kept
        case None =>
          && !report.duplicate && (report.success <==> report.errors == [])
          && Arranged(core, trace, |old(trace)|, useInhibitor, runs)
          && OneRun(core, trace[..runs.end], runs.first, runs.second == |trace| && report.success, prune, manifest,
                    catalog, previous)
          && (runs.second < |trace| ==>
              OneRun(core, trace, runs.second, report.success, prune, manifest, catalog, previous))
          && (runs.threw && runs.second == |trace| ==> !report.success)
          && operationCache.data == if report.success
              then Cache.Pruned(Cache.Upsert(kept, Cache.Entry(manifest.operationId, finished, report)),
                                finished - operationCache.ttlMs, operationCache.maxEntries)
              else kept
    {
      hide Cache.Pruned, Cache.Find, Cache.Upsert, OneRun, Arranged;
      var cached := operationCache.Get(manifest.operationId, started);
      if cached.Some? { return cached.value.(duplicate := true), Runs(|trace|, |trace|, |trace|, false); }
      errors := [];
      var thrown;
      thrown, runs := ApplyAwake(manifest, catalog, previous);
      if thrown { errors := errors + ["apply failed"]; }
      report := Report(errors, errors == [], false);
      if report.success { operationCache.Put(manifest.operationId, report, finished); }
    }

    method Perform(o: Operation) returns (report: Report)
      modifies this, operationCache
      ensures old(trace) <= trace
      ensures Performed(operationCache.ttlMs, operationCache.maxEntries, o, old(operationCache.data), report,
                        operationCache.data)
      ensures report.duplicate ==> trace == old(trace)
    {
      hide Cache.Pruned, Cache.Find, Cache.Upsert, OneRun, Arranged;
      ghost var runs;
      report, runs := Apply(o.manifest, o.catalog, o.previous, o.started, o.finished);
    }

    /** Operations one after the other. An entry that the cache holds at first stays in it, as long as it does not
        expire and there is room beside all that is stored. */
    method PerformAll(operations: seq<Operation>, ghost e: Cache.Entry<Report>, ghost at: int, ghost held: bool)
      returns (reports: seq<Report>)
      requires OneByOne(operations) && (operations != [] ==> at < operations[0].finished)
      requires forall i :: 0 <= i < |operations| ==> operations[i].finished <= e.created + operationCache.ttlMs
      requires held ==> Cache.Among(operationCache.data, e, 0) && Cache.Until(operationCache.data, at)
      modifies this, operationCache
      ensures |reports| == |operations| && old(trace) <= trace
      ensures held && Stored(reports) < operationCache.maxEntries ==>
        Cache.Among(operationCache.data, e, Stored(reports))
    {
      hide Cache.Among, Cache.Until, Performed;
      reports := [];
      ghost var now := at;
      for i := 0 to |operations|
        invariant |reports| == i && old(trace) <= trace
        invariant i < |operations| ==> now < operations[i].finished
        invariant held && Stored(reports) < operationCache.maxEntries ==>
          Cache.Among(operationCache.data, e, Stored(reports)) && Cache.Until(operationCache.data, now)
      {
        ghost var before := operationCache.data;
        var report := Perform(operations[i]);
        StoredNext(reports, report);
        if held && Stored(reports + [report]) < operationCache.maxEntries {
          OtherIsPerformed(operationCache.ttlMs, operationCache.maxEntries, operations[i], before, report,
                           operationCache.data, e, Stored(reports), now);
        }
        reports, now := reports + [report], operations[i].finished;
      }
    }

    /** A successful operation that comes again before it expires is answered without a single request, with any
        operations in between, as long as fewer of them were stored than the cache holds. */
    method Replay(o: Operation, others: seq<Operation>, again: Operation)
      returns (first: Report, reports: seq<Report>, second: Report, ghost before: Trace)
      requires Cache.Ordered(operationCache.data) && OneByOne([o] + others + [again])
      requires forall e :: e in operationCache.data ==> e.created < o.finished
      requires again.manifest.operationId == o.manifest.operationId
      requires again.started <= o.finished + operationCache.ttlMs
      modifies this, operationCache
      ensures |reports| == |others| && before <= trace
      ensures first.success && !first.duplicate && Stored(reports) < operationCache.maxEntries ==>
        second == first.(duplicate := true) && trace == before
    {
      hide Cache.Ordered, Cache.Among, Cache.Until, Performed, OneByOne;
      ghost var data := operationCache.data;
      TimesInOrder(o, others, again);
      first := Perform(o);
      ghost var held := first.success && !first.duplicate && operationCache.maxEntries > 0;
      ghost var e := Cache.Entry(o.manifest.operationId, o.finished, first);
      if held { FirstIsHeld(operationCache.ttlMs, operationCache.maxEntries, o, data, first, operationCache.data); }
      reports := PerformAll(others, e, o.finished, held);
      before, data := trace, operationCache.data;
      second := Perform(again);
      if held && Stored(reports) < operationCache.maxEntries {
        AgainIsAnswered(operationCache.ttlMs, operationCache.maxEntries, again, data, second, operationCache.data, e,
                        Stored(reports));
      }
    }
  }

  // ---------------------------------------------------------------------------
  // Operations one after the other
  // ---------------------------------------------------------------------------

  datatype Operation = Operation(manifest: Manifest, catalog: Catalog, previous: seq<Proxy>, started: int,
                                 finished: int)

  /** Each operation starts when the one before it has finished, and the clock moves between the ends. */
  ghost predicate OneByOne(operations: seq<Operation>) {
    && (forall i :: 0 <= i < |operations| ==> operations[i].started <= operations[i].finished)
    && (forall i, j :: 0 <= i < j < |operations| ==>
          operations[i].finished <= operations[j].started && operations[i].finished < operations[j].finished)
  }

  /** How many of these results went into the cache. */
  function Stored(reports: seq<Report>): nat {
    if reports == [] then 0
    else
      var last := reports[|reports| - 1];
      Stored(reports[..|reports| - 1]) + if last.success && !last.duplicate then 1 else 0
  }

  lemma StoredNext(reports: seq<Report>, report: Report)
    ensures Stored(reports + [report]) == Stored(reports) + if report.success && !report.duplicate then 1 else 0
  {
    assert (reports + [report])[..|reports|] == reports;
  }

  /** What one operation does to the cache: nothing but pruning, unless it succeeds anew. */
  ghost predicate Performed(ttl: nat, max: nat, o: Operation, before: seq<Cache.Entry<Report>>, report: Report,
                            after: seq<Cache.Entry<Report>>)
  {
    var kept := Cache.Pruned(before, o.started - ttl, max);
    match Cache.Find(kept, o.manifest.operationId)
    case Some(cached) => report == cached.(duplicate := true) && after == kept
    case None =>
      && !report.duplicate
      && after == if report.success
          then Cache.Pruned(Cache.Upsert(kept, Cache.Entry(o.manifest.operationId, o.finished, report)),
                            o.finished - ttl, max)
          else kept
  }

  lemma TimesInOrder(o: Operation, others: seq<Operation>, again: Operation)
    requires OneByOne([o] + others + [again])
    ensures OneByOne(others) && o.started <= o.finished <= again.started
    ensures forall i :: 0 <= i < |others| ==> o.finished < others[i].finished <= again.started
  {
    var all := [o] + others + [again];
    assert all[0] == o && all[|others| + 1] == again;
    forall i | 0 <= i < |others|
      ensures others[i] == all[i + 1] && o.finished < others[i].finished <= again.started
      ensures others[i].started <= others[i].finished
    {
      assert all[i + 1] == others[i];
      assert all[0].finished < all[i + 1].finished <= all[|others| + 1].started;
    }
  }

  lemma FirstIsHeld(ttl: nat, max: nat, o: Operation, before: seq<Cache.Entry<Report>>, report: Report,
                    after: seq<Cache.Entry<Report>>)
    requires Performed(ttl, max, o, before, report, after) && report.success && !report.duplicate && max > 0
    requires Cache.Ordered(before) && forall d :: d in before ==> d.created < o.finished
    ensures var e := Cache.Entry(o.manifest.operationId, o.finished, report);
      Cache.Among(after, e, 0) && Cache.Until(after, o.finished)
  {
    hide Cache.Pruned, Cache.Find, Cache.Upsert, Cache.Ordered;
    var kept := Cache.Pruned(before, o.started - ttl, max);
    Cache.PrunedOrdered(before, o.started - ttl, max);
    Cache.PutIsNewest(kept, Cache.Entry(o.manifest.operationId, o.finished, report), ttl, max);
  }

  lemma OtherIsPerformed(ttl: nat, max: nat, o: Operation, before: seq<Cache.Entry<Report>>, report: Report,
                         after: seq<Cache.Entry<Report>>, e: Cache.Entry<Report>, newer: nat, at: int)
    requires Performed(ttl, max, o, before, report, after) && Cache.Among(before, e, newer) && Cache.Until(before, at)
    requires at < o.finished && o.started <= o.finished <= e.created + ttl
    requires newer + (if report.success && !report.duplicate then 1 else 0) < max
    ensures Cache.Among(after, e, newer + if report.success && !report.duplicate then 1 else 0)
    ensures Cache.Until(after, o.finished)
  {
    hide Cache.Pruned, Cache.Find, Cache.Upsert, Cache.Among;
    var kept := Cache.Pruned(before, o.started - ttl, max);
    Cache.AmongPruned(before, e, newer, o.started - ttl, max);
    if o.manifest.operationId == e.id {
      Cache.AmongIsFound(kept, e, newer);
    } else if Cache.Find(kept, o.manifest.operationId).None? && report.success {
      Cache.AmongPut(kept, e, newer, Cache.Entry(o.manifest.operationId, o.finished, report), ttl, max);
    }
  }

  lemma AgainIsAnswered(ttl: nat, max: nat, o: Operation, before: seq<Cache.Entry<Report>>, report: Report,
                        after: seq<Cache.Entry<Report>>, e: Cache.Entry<Report>, newer: nat)
    requires Performed(ttl, max, o, before, report, after) && Cache.Among(before, e, newer)
    requires o.started <= e.created + ttl && newer < max && o.manifest.operationId == e.id
    ensures report == e.result.(duplicate := true)
  {
    hide Cache.Pruned, Cache.Find, Cache.Among, Cache.Until;
    Cache.AmongPruned(before, e, newer, o.started - ttl, max);
    Cache.AmongIsFound(Cache.Pruned(before, o.started - ttl, max), e, newer);
  }
}
