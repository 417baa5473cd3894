/**
 The OpenFGA client and the event handlers that use it, for store calls that succeed. Each handler is given the
 event that was handled; an event of another type is logged and changes nothing.
 */
module Authz {
  import opened Common
  import opened Tuples

  lemma DistinctAppend<T>(a: seq<T>, b: seq<T>)
    ensures Distinct(a + b) <==> Distinct(a) && Distinct(b) && Elems(a) * Elems(b) == {}
  {
    var both := a + b;
    if Distinct(both) {
      forall i, j | 0 <= i < j < |b|
        ensures b[i] != b[j]
      {
        assert both[|a| + i] != both[|a| + j];
      }
      forall x | x in a
        ensures x !in b
      {
        var i :| 0 <= i < |a| && a[i] == x;
        forall j | 0 <= j < |b|
          ensures b[j] != x
        {
          assert both[i] != both[|a| + j];
        }
      }
      assert Distinct(a) by {
        forall i, j | 0 <= i < j < |a|
          ensures a[i] != a[j]
        {
          assert both[i] != both[j];
        }
      }
    }
    if Distinct(a) && Distinct(b) && Elems(a) * Elems(b) == {} {
      forall i, j | 0 <= i < j < |both|
        ensures both[i] != both[j]
      {
        if i < |a| <= j {
          assert both[i] in Elems(a) && both[j] in Elems(b);
          assert both[i] !in Elems(a) * Elems(b);
        }
      }
    }
  }

  class Authz {
    var tuples: set<Tuple>

    constructor (tuples: set<Tuple>)
      ensures this.tuples == tuples
    {
      this.tuples := tuples;
    }

    /** authz.go lines 476 to 529. The store lists the matching tuples in some order. */
    method ListRelations(f: Filter) returns (ok: bool, found: seq<Tuple>)
      ensures ok <==> f.objectType.Some? && (f.objectId.Some? || (f.userType.Some? && f.userId.Some?))
      ensures ok <==> Readable(f)
      ensures ok ==> Distinct(found) && Elems(found) == Selected(tuples, f)
    {
      found := [];
      if f.objectType.None? {
        return false, found;
      }
      if f.objectId.None? && (f.userType.None? || f.userId.None?) {
        return false, found;
      }
      var todo := Selected(tuples, f);
      ghost var all := todo;
      while todo != {}
        invariant todo <= all && Elems(found) == all - todo && Distinct(found)
        decreases todo
      {
        var t :| t in todo;
        assert Elems(found + [t]) == Elems(found) + {t};
        DistinctAppend(found, [t]);
        found, todo := found + [t], todo - {t};
      }
      ok := true;
    }

    /** authz.go lines 203 to 247. */
    method AddRelation(t: Tuple)
      modifies this
      ensures tuples == old(tuples) + {t}
    {
      if t in tuples {
        return;
      }
      tuples := tuples + {t};
    }

    /** authz.go lines 250 to 289: tuples that exist already are ignored, one listed twice is refused. */
    method AddRelationBulk(relations: seq<Tuple>) returns (ok: bool)
      modifies this
      ensures ok <==> Distinct(relations)
      ensures tuples == if ok then old(tuples) + Elems(relations) else old(tuples)
    {
      ok := Distinct(relations);
      if ok {
        tuples := tuples + Elems(relations);
      }
    }

    /** authz.go lines 292 to 342. */
    method RemoveRelation(t: Tuple)
      modifies this
      ensures tuples == old(tuples) - {t}
    {
      if t !in tuples {
        return;
      }
      tuples := tuples - {t};
    }

    /** authz.go lines 345 to 398: the matches of all filters go into one delete request. */
    method RemoveRelationBulk(r: seq<Filter>) returns (ok: bool)
      modifies this
      ensures ok <==> AllReadable(r) && NoOverlap(old(tuples), r)
      ensures tuples == RemoveBulk(old(tuples), r)
    {
      var deletes: seq<Tuple> := [];
      for i := 0 to |r|
        invariant tuples == old(tuples) && AllReadable(r[..i])
        invariant Elems(deletes) == SelectedByAny(tuples, r[..i])
        invariant Distinct(deletes) <==> NoOverlap(tuples, r[..i])
      {
        var readable, found := ListRelations(r[i]);
        if !readable {
          return false;
        }
        DistinctAppend(deletes, found);
        OverlapSnoc(tuples, r, i);
        assert r[..i + 1][..i] == r[..i];
        assert Elems(deletes + found) == Elems(deletes) + Elems(found);
        deletes := deletes + found;
      }
      assert r[..|r|] == r;
      if |deletes| == 0 {
        return true;
      }
      ok := Distinct(deletes);
      if ok {
        tuples := tuples - Elems(deletes);
      }
    }

    /** authz.go lines 444 to 473. */
    method UpdateRelation(add: Tuple, rem: Filter)
      modifies this
      ensures tuples == Update(old(tuples), add, rem)
    {
      var removed := RemoveRelationBulk([rem]);
      if !removed {
        return;
      }
      AddRelation(add);
    }
  }

  lemma OverlapSnoc(tuples: set<Tuple>, r: seq<Filter>, i: nat)
    requires i < |r|
    ensures NoOverlap(tuples, r[..i + 1]) <==>
              (NoOverlap(tuples, r[..i]) && SelectedByAny(tuples, r[..i]) * Selected(tuples, r[i]) == {})
  {
    var shorter, longer := r[..i], r[..i + 1];
    forall t
      ensures t in SelectedByAny(tuples, shorter) <==>
                t in tuples && exists k :: 0 <= k < i && Matches(shorter[k], t)
    {
      SelectedByAnyMember(tuples, shorter, t);
    }
    if NoOverlap(tuples, longer) {
      forall t, j, k | t in tuples && 0 <= j < k < i
        ensures !(Matches(shorter[j], t) && Matches(shorter[k], t))
      {
        assert longer[j] == shorter[j] && longer[k] == shorter[k];
      }
      forall t | t in SelectedByAny(tuples, shorter)
        ensures t !in Selected(tuples, r[i])
      {
        var k :| 0 <= k < i && Matches(shorter[k], t);
        assert longer[k] == shorter[k] && longer[i] == r[i];
      }
    }
    if NoOverlap(tuples, shorter) && SelectedByAny(tuples, shorter) * Selected(tuples, r[i]) == {} {
      forall t, j, k | t in tuples && 0 <= j < k < i + 1
        ensures !(Matches(longer[j], t) && Matches(longer[k], t))
      {
        assert longer[j] == shorter[j];
        if k < i {
          assert longer[k] == shorter[k];
        } else if Matches(longer[j], t) && Matches(longer[i], t) {
          assert t in SelectedByAny(tuples, shorter) * Selected(tuples, r[i]);
        }
      }
    }
  }

  // ---------- Handlers ----------

  /** component_instance_handler_events.go lines 168 to 221. */
  method OnComponentInstanceCreateAuthz(authz: Authz, ev: Event)
    modifies authz
    ensures authz.tuples == if ev.CreateInstance? then Apply(old(authz.tuples), ev) else old(authz.tuples)
  {
    if ev.CreateInstance? {
      var relations := [RoleTuple(ev.createdBy, Entity(ComponentInstance, ev.id)),
                        ServiceTuple(ev.service, ev.id),
                        VersionTuple(ev.id, ev.version)];
      var _ := authz.AddRelationBulk(relations);
    }
  }

  /** component_instance_handler_events.go lines 227 to 332. */
  method OnComponentInstanceUpdateAuthz(authz: Authz, ev: Event)
    modifies authz
    ensures authz.tuples == if ev.UpdateInstance? then Apply(old(authz.tuples), ev) else old(authz.tuples)
  {
    if ev.UpdateInstance? {
      if ev.service != 0 {
        var t := ServiceTuple(ev.service, ev.id);
        var ok, existing := authz.ListRelations(Exactly(t));
        ExactlySelects(authz.tuples, t);
        if |existing| == 0 {
          authz.UpdateRelation(t, AnyServiceOf(ev.id));
        } else {
          assert existing[0] in Elems(existing);
        }
      }
      if ev.version != 0 {
        var t := VersionTuple(ev.id, ev.version);
        var ok, existing := authz.ListRelations(Exactly(t));
        ExactlySelects(authz.tuples, t);
        if |existing| == 0 {
          authz.UpdateRelation(t, AnyVersionOf(ev.id));
        } else {
          assert existing[0] in Elems(existing);
        }
      }
    }
  }

  function Exactly(t: Tuple): Filter {
    Filter(Some(t.user.kind), Some(t.user.id), Some(t.relation), Some(t.resource.kind), Some(t.resource.id))
  }

  lemma ExactlySelects(tuples: set<Tuple>, t: Tuple)
    ensures Readable(Exactly(t)) && Selected(tuples, Exactly(t)) == if t in tuples then {t} else {}
  {
    assert forall u :: Matches(Exactly(t), u) <==> u == t;
  }

  /** component_version_handler_events.go lines 60 to 97. */
  method OnComponentVersionCreateAuthz(authz: Authz, ev: Event)
    modifies authz
    ensures authz.tuples == if ev.CreateVersion? then Apply(old(authz.tuples), ev) else old(authz.tuples)
  {
    if ev.CreateVersion? {
      var _ := authz.AddRelationBulk([RoleTuple(ev.createdBy, Entity(ComponentVersion, ev.id))]);
    }
  }

  /** component_version_handler_events.go lines 102 to 148. */
  method OnComponentVersionUpdateAuthz(authz: Authz, ev: Event)
    modifies authz
    ensures authz.tuples == if ev.UpdateVersion? then Apply(old(authz.tuples), ev) else old(authz.tuples)
  {
    if ev.UpdateVersion? {
      authz.UpdateRelation(ComponentTuple(ev.id, ev.component), AnyComponentOf(ev.id));
    }
  }

  /** issue_match_handler_events.go lines 288 to 335. */
  method OnIssueMatchUpdateAuthz(authz: Authz, ev: Event)
    modifies authz
    ensures authz.tuples == if ev.UpdateMatch? then Apply(old(authz.tuples), ev) else old(authz.tuples)
  {
    if ev.UpdateMatch? {
      var _ := authz.RemoveRelationBulk([AnyInstanceOf(ev.id)]);
      var _ := authz.AddRelationBulk([MatchTuple(ev.instance, ev.id)]);
    }
  }

  /** support_group_handler_events.go lines 216 to 247. */
  method OnAddServiceToSupportGroup(authz: Authz, ev: Event)
    modifies authz
    ensures authz.tuples == if ev.AddService? then Apply(old(authz.tuples), ev) else old(authz.tuples)
  {
    if ev.AddService? {
      var _ := authz.AddRelationBulk([GroupServiceTuple(ev.group, ev.service)]);
    }
  }

  /** support_group_handler_events.go lines 251 to 284. */
  method OnRemoveServiceFromSupportGroup(authz: Authz, ev: Event)
    modifies authz
    ensures authz.tuples == if ev.RemoveService? then Apply(old(authz.tuples), ev) else old(authz.tuples)
  {
    if ev.RemoveService? {
      authz.RemoveRelation(GroupServiceTuple(ev.group, ev.service));
    }
  }

  /** support_group_handler_events.go lines 288 to 319. */
  method OnAddUserToSupportGroup(authz: Authz, ev: Event)
    modifies authz
    ensures authz.tuples == if ev.AddMember? then Apply(old(authz.tuples), ev) else old(authz.tuples)
  {
    if ev.AddMember? {
      var _ := authz.AddRelationBulk([MemberTuple(ev.user, ev.group)]);
    }
  }

  /** support_group_handler_events.go lines 323 to 356. */
  method OnRemoveUserFromSupportGroup(authz: Authz, ev: Event)
    modifies authz
    ensures authz.tuples == if ev.RemoveMember? then Apply(old(authz.tuples), ev) else old(authz.tuples)
  {
    if ev.RemoveMember? {
      authz.RemoveRelation(MemberTuple(ev.user, ev.group));
    }
  }

  /** service_handler_events.go lines 271 to 300. */
  method OnAddOwnerToService(authz: Authz, ev: Event)
    modifies authz
    ensures authz.tuples == if ev.AddOwner? then Apply(old(authz.tuples), ev) else old(authz.tuples)
  {
    if ev.AddOwner? {
      var _ := authz.AddRelationBulk([OwnerTuple(ev.user, ev.service)]);
    }
  }

  /** service_handler_events.go lines 304 to 331. */
  method OnRemoveOwnerFromService(authz: Authz, ev: Event)
    modifies authz
    ensures authz.tuples == if ev.RemoveOwner? then Apply(old(authz.tuples), ev) else old(authz.tuples)
  {
    if ev.RemoveOwner? {
      authz.RemoveRelation(OwnerTuple(ev.user, ev.service));
    }
  }

  /** component_handler_events.go lines 79 to 110. */
  method OnComponentCreateAuthz(authz: Authz, ev: Event)
    modifies authz
    ensures authz.tuples == if ev.CreateComponent? then Apply(old(authz.tuples), ev) else old(authz.tuples)
  {
    if ev.CreateComponent? {
      var _ := authz.AddRelationBulk([RoleTuple(ev.createdBy, Entity(Component, ev.id))]);
    }
  }

  /** service_handler_events.go lines 198 to 229. */
  method OnServiceCreateAuthz(authz: Authz, ev: Event)
    modifies authz
    ensures authz.tuples == if ev.CreateService? then Apply(old(authz.tuples), ev) else old(authz.tuples)
  {
    if ev.CreateService? {
      var _ := authz.AddRelationBulk([RoleTuple(ev.createdBy, Entity(Service, ev.id))]);
    }
  }

  /** support_group_handler_events.go lines 119 to 152. */
  method OnSupportGroupCreateAuthz(authz: Authz, ev: Event)
    modifies authz
    ensures authz.tuples == if ev.CreateGroup? then Apply(old(authz.tuples), ev) else old(authz.tuples)
  {
    if ev.CreateGroup? {
      var _ := authz.AddRelationBulk([RoleTuple(ev.createdBy, Entity(SupportGroup, ev.id))]);
    }
  }

  /** issue_match_handler_events.go lines 252 to 283. */
  method OnIssueMatchCreateAuthz(authz: Authz, ev: Event)
    modifies authz
    ensures authz.tuples == if ev.CreateMatch? then Apply(old(authz.tuples), ev) else old(authz.tuples)
  {
    if ev.CreateMatch? {
      var _ := authz.AddRelationBulk([RoleTuple(ev.createdBy, Entity(IssueMatch, ev.id))]);
    }
  }

  predicate Deletes(ev: Event, kind: Kind) {
    ev.Delete? && ev.entity.kind == kind
  }

  /** support_group_handler_events.go lines 155 to 212: the self tuple is removed first. */
  method OnSupportGroupDeleteAuthz(authz: Authz, ev: Event)
    modifies authz
    ensures authz.tuples == if Deletes(ev, SupportGroup) then Apply(old(authz.tuples), ev) else old(authz.tuples)
    ensures Deletes(ev, SupportGroup) && AllShaped(old(authz.tuples)) ==>
              authz.tuples == set t | t in old(authz.tuples) && !Names(t, ev.entity)
  {
    if Deletes(ev, SupportGroup) {
      authz.RemoveRelation(SelfTuple(ev.entity.id));
      var deleteInput := [OfResource(ev.entity)];
      deleteInput := deleteInput + [OfUser(ev.entity, Service)];
      deleteInput := deleteInput + [OfUser(ev.entity, SupportGroup)];
      assert deleteInput == DeleteFilters(ev.entity);
      var _ := authz.RemoveRelationBulk(deleteInput);
      if AllShaped(old(authz.tuples)) {
        DeleteRemovesExactly(old(authz.tuples), ev.entity);
      }
    }
  }

  /** user_handler_events.go lines 91 to 157. */
  method OnUserDeleteAuthz(authz: Authz, ev: Event)
    modifies authz
    ensures authz.tuples == if Deletes(ev, User) then Apply(old(authz.tuples), ev) else old(authz.tuples)
    ensures Deletes(ev, User) && AllShaped(old(authz.tuples)) ==>
              authz.tuples == set t | t in old(authz.tuples) && !Names(t, ev.entity)
  {
    if Deletes(ev, User) {
      var deleteInput := [OfResource(ev.entity)];
      deleteInput := deleteInput + [OfUser(ev.entity, Service)];
      deleteInput := deleteInput + [OfUser(ev.entity, Component)];
      deleteInput := deleteInput + [OfUser(ev.entity, ComponentVersion)];
      deleteInput := deleteInput + [OfUser(ev.entity, ComponentInstance)];
      deleteInput := deleteInput + [OfUser(ev.entity, IssueMatch)];
      deleteInput := deleteInput + [OfUser(ev.entity, SupportGroup)];
      deleteInput := deleteInput + [OfUser(ev.entity, Role)];
      assert deleteInput == DeleteFilters(ev.entity);
      var _ := authz.RemoveRelationBulk(deleteInput);
      if AllShaped(old(authz.tuples)) {
        DeleteRemovesExactly(old(authz.tuples), ev.entity);
      }
    }
  }

  /** component_instance_handler_events.go lines 336 to 382. */
  method OnComponentInstanceDeleteAuthz(authz: Authz, ev: Event)
    modifies authz
    ensures authz.tuples == if Deletes(ev, ComponentInstance) then Apply(old(authz.tuples), ev) else old(authz.tuples)
    ensures Deletes(ev, ComponentInstance) && AllShaped(old(authz.tuples)) ==>
              authz.tuples == set t | t in old(authz.tuples) && !Names(t, ev.entity)
  {
    if Deletes(ev, ComponentInstance) {
      var deleteInput := [OfResource(ev.entity)];
      deleteInput := deleteInput + [OfUser(ev.entity, ComponentVersion)];
      deleteInput := deleteInput + [OfUser(ev.entity, IssueMatch)];
      assert deleteInput == DeleteFilters(ev.entity);
      var _ := authz.RemoveRelationBulk(deleteInput);
      if AllShaped(old(authz.tuples)) {
        DeleteRemovesExactly(old(authz.tuples), ev.entity);
      }
    }
  }

  /** component_version_handler_events.go lines 151 to 191. */
  method OnComponentVersionDeleteAuthz(authz: Authz, ev: Event)
    modifies authz
    ensures authz.tuples == if Deletes(ev, ComponentVersion) then Apply(old(authz.tuples), ev) else old(authz.tuples)
    ensures Deletes(ev, ComponentVersion) && AllShaped(old(authz.tuples)) ==>
              authz.tuples == set t | t in old(authz.tuples) && !Names(t, ev.entity)
  {
    if Deletes(ev, ComponentVersion) {
      var deleteInput := [OfResource(ev.entity)];
      deleteInput := deleteInput + [OfUser(ev.entity, Component)];
      assert deleteInput == DeleteFilters(ev.entity);
      var _ := authz.RemoveRelationBulk(deleteInput);
      if AllShaped(old(authz.tuples)) {
        DeleteRemovesExactly(old(authz.tuples), ev.entity);
      }
    }
  }

  /** issue_match_handler_events.go lines 338 to 372. */
  method OnIssueMatchDeleteAuthz(authz: Authz, ev: Event)
    modifies authz
    ensures authz.tuples == if Deletes(ev, IssueMatch) then Apply(old(authz.tuples), ev) else old(authz.tuples)
    ensures Deletes(ev, IssueMatch) && AllShaped(old(authz.tuples)) ==>
              authz.tuples == set t | t in old(authz.tuples) && !Names(t, ev.entity)
  {
    if Deletes(ev, IssueMatch) {
      var deleteInput := [OfResource(ev.entity)];
      assert deleteInput == DeleteFilters(ev.entity);
      var _ := authz.RemoveRelationBulk(deleteInput);
      if AllShaped(old(authz.tuples)) {
        DeleteRemovesExactly(old(authz.tuples), ev.entity);
      }
    }
  }

  /** component_handler_events.go lines 113 to 140. */
  method OnComponentDeleteAuthz(authz: Authz, ev: Event)
    modifies authz
    ensures authz.tuples == if Deletes(ev, Component) then Apply(old(authz.tuples), ev) else old(authz.tuples)
    ensures Deletes(ev, Component) && AllShaped(old(authz.tuples)) ==>
              authz.tuples == set t | t in old(authz.tuples) && !Names(t, ev.entity)
  {
    if Deletes(ev, Component) {
      var deleteInput := [OfResource(ev.entity)];
      assert deleteInput == DeleteFilters(ev.entity);
      var _ := authz.RemoveRelationBulk(deleteInput);
      if AllShaped(old(authz.tuples)) {
        DeleteRemovesExactly(old(authz.tuples), ev.entity);
      }
    }
  }

  /** service_handler_events.go lines 233 to 267. */
  method OnServiceDeleteAuthz(authz: Authz, ev: Event)
    modifies authz
    ensures authz.tuples == if Deletes(ev, Service) then Apply(old(authz.tuples), ev) else old(authz.tuples)
    ensures Deletes(ev, Service) && AllShaped(old(authz.tuples)) ==>
              authz.tuples == set t | t in old(authz.tuples) && !Names(t, ev.entity)
  {
    if Deletes(ev, Service) {
      var deleteInput := [OfResource(ev.entity)];
      deleteInput := deleteInput + [OfUser(ev.entity, ComponentInstance)];
      assert deleteInput == DeleteFilters(ev.entity);
      var _ := authz.RemoveRelationBulk(deleteInput);
      if AllShaped(old(authz.tuples)) {
        DeleteRemovesExactly(old(authz.tuples), ev.entity);
      }
    }
  }

  // ---------- Any sequence of events ----------

  /** The handler registered for the event: heureka.go lines 187 to 275. */
  method HandleEvent(authz: Authz, ev: Event)
    modifies authz
    ensures authz.tuples == Apply(old(authz.tuples), ev)
  {
    match ev {
      case CreateInstance(_, _, _, _) => OnComponentInstanceCreateAuthz(authz, ev);
      case UpdateInstance(_, _, _) => OnComponentInstanceUpdateAuthz(authz, ev);
      case CreateVersion(_, _) => OnComponentVersionCreateAuthz(authz, ev);
      case UpdateVersion(_, _) => OnComponentVersionUpdateAuthz(authz, ev);
      case CreateMatch(_, _) => OnIssueMatchCreateAuthz(authz, ev);
      case UpdateMatch(_, _) => OnIssueMatchUpdateAuthz(authz, ev);
      case CreateComponent(_, _) => OnComponentCreateAuthz(authz, ev);
      case CreateService(_, _) => OnServiceCreateAuthz(authz, ev);
      case CreateGroup(_, _) => OnSupportGroupCreateAuthz(authz, ev);
      case AddService(_, _) => OnAddServiceToSupportGroup(authz, ev);
      case RemoveService(_, _) => OnRemoveServiceFromSupportGroup(authz, ev);
      case AddMember(_, _) => OnAddUserToSupportGroup(authz, ev);
      case RemoveMember(_, _) => OnRemoveUserFromSupportGroup(authz, ev);
      case AddOwner(_, _) => OnAddOwnerToService(authz, ev);
      case RemoveOwner(_, _) => OnRemoveOwnerFromService(authz, ev);
      case Delete(e) => HandleDelete(authz, ev);
    }
  }

  /** Nothing is deleted for roles. */
  method HandleDelete(authz: Authz, ev: Event)
    requires ev.Delete?
    modifies authz
    ensures authz.tuples == Apply(old(authz.tuples), ev)
  {
    match ev.entity.kind {
      case User => OnUserDeleteAuthz(authz, ev);
      case Role =>
      case SupportGroup => OnSupportGroupDeleteAuthz(authz, ev);
      case Service => OnServiceDeleteAuthz(authz, ev);
      case Component => OnComponentDeleteAuthz(authz, ev);
      case ComponentVersion => OnComponentVersionDeleteAuthz(authz, ev);
      case ComponentInstance => OnComponentInstanceDeleteAuthz(authz, ev);
      case IssueMatch => OnIssueMatchDeleteAuthz(authz, ev);
    }
  }

  /** The handlers, called for one event after the other, leave exactly the tuples that the last event about each of
      them asked for, and keep the store unambiguous and its tuples in shape. */
  method HandleEvents(authz: Authz, events: seq<Event>)
    modifies authz
    ensures authz.tuples == Run(old(authz.tuples), events)
    ensures Functional(old(authz.tuples)) && AllShaped(old(authz.tuples)) && FreshIds(old(authz.tuples), events) ==>
              Functional(authz.tuples) && AllShaped(authz.tuples) &&
              forall t :: t in authz.tuples <==> Remains(old(authz.tuples), events, t)
  {
    ghost var tuples := authz.tuples;
    for i := 0 to |events|
      invariant authz.tuples == Run(tuples, events[..i])
    {
      HandleEvent(authz, events[i]);
      assert events[..i + 1][..i] == events[..i];
    }
    assert events[..|events|] == events;
    if Functional(tuples) && AllShaped(tuples) && FreshIds(tuples, events) {
      RunsAreFunctional(tuples, events);
      forall t
        ensures t in authz.tuples <==> Remains(tuples, events, t)
      {
        RunMembership(tuples, events, t);
      }
    }
  }

  /** Without removing the self tuple first, a support group's delete request would list it twice and be refused,
      leaving every tuple in place. */
  lemma SelfTupleWouldBlockDelete(tuples: set<Tuple>, group: int)
    requires SelfTuple(group) in tuples
    ensures RemoveBulk(tuples, DeleteFilters(Entity(SupportGroup, group))) == tuples
  {
    var filters := DeleteFilters(Entity(SupportGroup, group));
    assert Matches(filters[0], SelfTuple(group)) && Matches(filters[2], SelfTuple(group));
  }
}
