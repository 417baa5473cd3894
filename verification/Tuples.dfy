/**
 The authorization store as a set of relation tuples, what the client operations do to it, and what the events
 of the application do to it.
 */
module Tuples {
  import opened Common

  datatype Kind = User | Role | SupportGroup | Service | Component | ComponentVersion | ComponentInstance | IssueMatch

  datatype Relation =
    | RelRole | RelSupportGroup | RelRelatedService | RelOwner | RelMember | RelComponentInstance
    | RelComponentVersion | RelOther(name: string)

  datatype Entity = Entity(kind: Kind, id: int)

  datatype Tuple = Tuple(user: Entity, relation: Relation, resource: Entity)

  /** A RelationInput used as a filter; empty strings are None. */
  datatype Filter = Filter(userType: Option<Kind>, userId: Option<int>, relation: Option<Relation>,
                           objectType: Option<Kind>, objectId: Option<int>)

  /** The user is only compared when both its type and its id are given. */
  predicate Matches(f: Filter, t: Tuple) {
    && (f.userType.Some? && f.userId.Some? ==> t.user == Entity(f.userType.value, f.userId.value))
    && (f.relation.Some? ==> t.relation == f.relation.value)
    && f.objectType == Some(t.resource.kind)
    && (f.objectId.Some? ==> t.resource.id == f.objectId.value)
  }

  /** What a read accepts: an object type, and a user unless the object is given with its id. */
  predicate Readable(f: Filter) {
    f.objectType.Some? && (f.objectId.None? ==> f.userType.Some? && f.userId.Some?)
  }

  function Selected(tuples: set<Tuple>, f: Filter): set<Tuple> {
    set t | t in tuples && Matches(f, t)
  }

  function SelectedByAny(tuples: set<Tuple>, filters: seq<Filter>): set<Tuple> {
    if filters == [] then {}
    else SelectedByAny(tuples, filters[..|filters| - 1]) + Selected(tuples, filters[|filters| - 1])
  }

  /** No tuple is selected by two of the filters, so a delete list has no duplicate. */
  predicate NoOverlap(tuples: set<Tuple>, filters: seq<Filter>) {
    forall t, i, j :: t in tuples && 0 <= i < j < |filters| ==> !(Matches(filters[i], t) && Matches(filters[j], t))
  }

  predicate AllReadable(filters: seq<Filter>) {
    forall i :: 0 <= i < |filters| ==> Readable(filters[i])
  }

  /** A request that lists a tuple twice is refused as a whole. */
  function RemoveBulk(tuples: set<Tuple>, filters: seq<Filter>): set<Tuple> {
    if AllReadable(filters) && NoOverlap(tuples, filters) then tuples - SelectedByAny(tuples, filters) else tuples
  }

  function Update(tuples: set<Tuple>, add: Tuple, rem: Filter): set<Tuple> {
    if Readable(rem) then RemoveBulk(tuples, [rem]) + {add} else tuples
  }

  // ---------- Filters and tuples of the handlers ----------

  function OfResource(resource: Entity): Filter {
    Filter(None, None, None, Some(resource.kind), Some(resource.id))
  }

  function OfUser(user: Entity, objectType: Kind): Filter {
    Filter(Some(user.kind), Some(user.id), None, Some(objectType), None)
  }

  function RoleTuple(createdBy: int, resource: Entity): Tuple {
    Tuple(Entity(Role, createdBy), RelRole, resource)
  }

  function ServiceTuple(service: int, instance: int): Tuple {
    Tuple(Entity(Service, service), RelRelatedService, Entity(ComponentInstance, instance))
  }

  function VersionTuple(instance: int, version: int): Tuple {
    Tuple(Entity(ComponentInstance, instance), RelComponentInstance, Entity(ComponentVersion, version))
  }

  function MatchTuple(instance: int, match_: int): Tuple {
    Tuple(Entity(ComponentInstance, instance), RelComponentInstance, Entity(IssueMatch, match_))
  }

  function ComponentTuple(version: int, component: int): Tuple {
    Tuple(Entity(ComponentVersion, version), RelComponentVersion, Entity(Component, component))
  }

  function GroupServiceTuple(group: int, service: int): Tuple {
    Tuple(Entity(SupportGroup, group), RelSupportGroup, Entity(Service, service))
  }

  function MemberTuple(user: int, group: int): Tuple {
    Tuple(Entity(User, user), RelMember, Entity(SupportGroup, group))
  }

  function OwnerTuple(user: int, service: int): Tuple {
    Tuple(Entity(User, user), RelOwner, Entity(Service, service))
  }

  function SelfTuple(group: int): Tuple {
    Tuple(Entity(SupportGroup, group), RelSupportGroup, Entity(SupportGroup, group))
  }

  /** Any service of an instance; the type without an id does not restrict the user. */
  function AnyServiceOf(instance: int): Filter {
    Filter(Some(Service), None, Some(RelRelatedService), Some(ComponentInstance), Some(instance))
  }

  function AnyVersionOf(instance: int): Filter {
    Filter(Some(ComponentInstance), Some(instance), Some(RelComponentInstance), Some(ComponentVersion), None)
  }

  function AnyInstanceOf(match_: int): Filter {
    Filter(Some(ComponentInstance), None, Some(RelComponentInstance), Some(IssueMatch), Some(match_))
  }

  function AnyComponentOf(version: int): Filter {
    Filter(Some(ComponentVersion), Some(version), Some(RelComponentVersion), Some(Component), None)
  }

  // ---------- Events ----------

  datatype Event =
    | CreateInstance(id: int, createdBy: int, service: int, version: int)
    | UpdateInstance(id: int, service: int, version: int)  // 0 means the event does not carry the field
    | CreateVersion(id: int, createdBy: int)
    | UpdateVersion(id: int, component: int)
    | CreateMatch(id: int, createdBy: int)
    | UpdateMatch(id: int, instance: int)
    | CreateComponent(id: int, createdBy: int)
    | CreateService(id: int, createdBy: int)
    | CreateGroup(id: int, createdBy: int)
    | AddService(group: int, service: int)
    | RemoveService(group: int, service: int)
    | AddMember(group: int, user: int)
    | RemoveMember(group: int, user: int)
    | AddOwner(service: int, user: int)
    | RemoveOwner(service: int, user: int)
    | Delete(entity: Entity)

  /** The filters of the delete handlers. */
  function DeleteFilters(e: Entity): seq<Filter> {
    match e.kind
    case ComponentInstance => [OfResource(e), OfUser(e, ComponentVersion), OfUser(e, IssueMatch)]
    case ComponentVersion => [OfResource(e), OfUser(e, Component)]
    case IssueMatch => [OfResource(e)]
    case Component => [OfResource(e)]
    case Service => [OfResource(e), OfUser(e, ComponentInstance)]
    case SupportGroup => [OfResource(e), OfUser(e, Service), OfUser(e, SupportGroup)]
    case User => [OfResource(e), OfUser(e, Service), OfUser(e, Component), OfUser(e, ComponentVersion),
                  OfUser(e, ComponentInstance), OfUser(e, IssueMatch), OfUser(e, SupportGroup), OfUser(e, Role)]
    case Role => []
  }

  function ApplyInstanceUpdate(tuples: set<Tuple>, id: int, service: int, version: int): set<Tuple> {
    var t1 := if service != 0 && ServiceTuple(service, id) !in tuples
              then Update(tuples, ServiceTuple(service, id), AnyServiceOf(id)) else tuples;
    if version != 0 && VersionTuple(id, version) !in t1
    then Update(t1, VersionTuple(id, version), AnyVersionOf(id)) else t1
  }

  function ApplyDelete(tuples: set<Tuple>, e: Entity): set<Tuple> {
    RemoveBulk(if e.kind == SupportGroup then tuples - {SelfTuple(e.id)} else tuples, DeleteFilters(e))
  }

  function Apply(tuples: set<Tuple>, ev: Event): set<Tuple> {
    match ev
    case CreateInstance(id, by_, service, version) =>
      tuples + {RoleTuple(by_, Entity(ComponentInstance, id)), ServiceTuple(service, id), VersionTuple(id, version)}
    case UpdateInstance(id, service, version) => ApplyInstanceUpdate(tuples, id, service, version)
    case CreateVersion(id, by_) => tuples + {RoleTuple(by_, Entity(ComponentVersion, id))}
    case UpdateVersion(id, component) => Update(tuples, ComponentTuple(id, component), AnyComponentOf(id))
    case CreateMatch(id, by_) => tuples + {RoleTuple(by_, Entity(IssueMatch, id))}
    case UpdateMatch(id, instance) => RemoveBulk(tuples, [AnyInstanceOf(id)]) + {MatchTuple(instance, id)}
    case CreateComponent(id, by_) => tuples + {RoleTuple(by_, Entity(Component, id))}
    case CreateService(id, by_) => tuples + {RoleTuple(by_, Entity(Service, id))}
    case CreateGroup(id, by_) => tuples + {RoleTuple(by_, Entity(SupportGroup, id))}
    case AddService(group, service) => tuples + {GroupServiceTuple(group, service)}
    case RemoveService(group, service) => tuples - {GroupServiceTuple(group, service)}
    case AddMember(group, user) => tuples + {MemberTuple(user, group)}
    case RemoveMember(group, user) => tuples - {MemberTuple(user, group)}
    case AddOwner(service, user) => tuples + {OwnerTuple(user, service)}
    case RemoveOwner(service, user) => tuples - {OwnerTuple(user, service)}
    case Delete(e) => ApplyDelete(tuples, e)
  }

  function Run(tuples: set<Tuple>, events: seq<Event>): set<Tuple> {
    if events == [] then tuples else Apply(Run(tuples, events[..|events| - 1]), events[|events| - 1])
  }

  // ---------- Invariants of every run ----------

  /** The tuple shapes the handlers write, and two that are allowed to come from elsewhere: users in roles and
      support groups in support groups. */
  predicate Shaped(t: Tuple) {
    match t.user.kind
    case User => (t.resource.kind == SupportGroup && t.relation == RelMember) ||
                 (t.resource.kind == Service && t.relation == RelOwner) || t.resource.kind == Role
    case Role => t.relation == RelRole && t.resource.kind != User && t.resource.kind != Role
    case SupportGroup => t.relation == RelSupportGroup &&
                         (t.resource.kind == Service || t.resource.kind == SupportGroup)
    case Service => t.relation == RelRelatedService && t.resource.kind == ComponentInstance
    case ComponentInstance => t.relation == RelComponentInstance &&
                              (t.resource.kind == ComponentVersion || t.resource.kind == IssueMatch)
    case ComponentVersion => t.relation == RelComponentVersion && t.resource.kind == Component
    case Component => false
    case IssueMatch => false
  }

  predicate AllShaped(tuples: set<Tuple>) {
    forall t :: t in tuples ==> Shaped(t)
  }

  predicate AtMostOne(tuples: set<Tuple>, f: Filter) {
    forall t, u :: t in tuples && u in tuples && Matches(f, t) && Matches(f, u) ==> t == u
  }

  /** Each instance has at most one service and one version, each version at most one component, each issue
      match at most one instance. */
  ghost predicate Functional(tuples: set<Tuple>) {
    && (forall id :: AtMostOne(tuples, AnyServiceOf(id)))
    && (forall id :: AtMostOne(tuples, AnyVersionOf(id)))
    && (forall id :: AtMostOne(tuples, AnyComponentOf(id)))
    && (forall id :: AtMostOne(tuples, AnyInstanceOf(id)))
  }

  /** Nothing is recorded yet about the service or version of the instance. */
  predicate Unlinked(tuples: set<Tuple>, id: int) {
    Selected(tuples, AnyServiceOf(id)) == {} && Selected(tuples, AnyVersionOf(id)) == {}
  }

  predicate LinksInstance(ev: Event, id: int) {
    (ev.CreateInstance? || ev.UpdateInstance?) && ev.id == id
  }

  /** Instance ids are generated: a create event is the first event about its id. */
  ghost predicate FreshIds(tuples: set<Tuple>, events: seq<Event>) {
    forall k :: 0 <= k < |events| && events[k].CreateInstance? ==>
      && Unlinked(tuples, events[k].id)
      && forall j :: 0 <= j < k ==> !LinksInstance(events[j], events[k].id)
  }

  lemma RemoveOne(tuples: set<Tuple>, f: Filter)
    requires Readable(f)
    ensures RemoveBulk(tuples, [f]) == tuples - Selected(tuples, f)
  {
    assert [f][..0] == [];
    assert SelectedByAny(tuples, [f]) == SelectedByAny(tuples, []) + Selected(tuples, f);
  }

  lemma RemoveBulkShrinks(tuples: set<Tuple>, filters: seq<Filter>)
    ensures RemoveBulk(tuples, filters) <= tuples
  {
  }

  lemma ShapesKept(tuples: set<Tuple>, ev: Event)
    requires AllShaped(tuples)
    ensures AllShaped(Apply(tuples, ev))
  {
  }

  /** Replacing whatever a filter selects by one tuple leaves exactly that one. */
  lemma UpdateReplaces(tuples: set<Tuple>, add: Tuple, rem: Filter)
    requires Readable(rem)
    ensures Update(tuples, add, rem) == tuples - Selected(tuples, rem) + {add}
    ensures Matches(rem, add) ==> Selected(Update(tuples, add, rem), rem) == {add}
  {
    RemoveOne(tuples, rem);
  }

  /** A change that removes tuples and adds one keeps uniqueness of every filter the new one does not match,
      and of every filter that is cleared first. */
  lemma AtMostOneKept(tuples: set<Tuple>, add: Tuple, rem: Filter, f: Filter)
    requires Readable(rem) && AtMostOne(tuples, f)
    requires f == rem || !Matches(f, add)
    ensures AtMostOne(Update(tuples, add, rem), f)
  {
    UpdateReplaces(tuples, add, rem);
  }

  lemma FunctionalUpdate(tuples: set<Tuple>, add: Tuple, rem: Filter)
    requires Functional(tuples) && Readable(rem)
    requires forall id :: AnyServiceOf(id) == rem || !Matches(AnyServiceOf(id), add)
    requires forall id :: AnyVersionOf(id) == rem || !Matches(AnyVersionOf(id), add)
    requires forall id :: AnyComponentOf(id) == rem || !Matches(AnyComponentOf(id), add)
    requires forall id :: AnyInstanceOf(id) == rem || !Matches(AnyInstanceOf(id), add)
    ensures Functional(Update(tuples, add, rem))
  {
    forall id
      ensures AtMostOne(Update(tuples, add, rem), AnyServiceOf(id))
      ensures AtMostOne(Update(tuples, add, rem), AnyVersionOf(id))
      ensures AtMostOne(Update(tuples, add, rem), AnyComponentOf(id))
      ensures AtMostOne(Update(tuples, add, rem), AnyInstanceOf(id))
    {
      AtMostOneKept(tuples, add, rem, AnyServiceOf(id));
      AtMostOneKept(tuples, add, rem, AnyVersionOf(id));
      AtMostOneKept(tuples, add, rem, AnyComponentOf(id));
      AtMostOneKept(tuples, add, rem, AnyInstanceOf(id));
    }
  }

  lemma SubsetFunctional(tuples: set<Tuple>, fewer: set<Tuple>)
    requires Functional(tuples) && fewer <= tuples
    ensures Functional(fewer)
  {
    forall id
      ensures AtMostOne(fewer, AnyServiceOf(id)) && AtMostOne(fewer, AnyVersionOf(id))
      ensures AtMostOne(fewer, AnyComponentOf(id)) && AtMostOne(fewer, AnyInstanceOf(id))
    {
      assert AtMostOne(tuples, AnyServiceOf(id)) && AtMostOne(tuples, AnyVersionOf(id));
      assert AtMostOne(tuples, AnyComponentOf(id)) && AtMostOne(tuples, AnyInstanceOf(id));
    }
  }

  /** A tuple that no uniqueness rule is about. */
  predicate Unruled(t: Tuple) {
    t.relation != RelRelatedService && t.relation != RelComponentInstance && t.relation != RelComponentVersion
  }

  lemma AddUnruled(tuples: set<Tuple>, t: Tuple)
    requires Functional(tuples) && Unruled(t)
    ensures Functional(tuples + {t})
  {
    forall id
      ensures AtMostOne(tuples + {t}, AnyServiceOf(id)) && AtMostOne(tuples + {t}, AnyVersionOf(id))
      ensures AtMostOne(tuples + {t}, AnyComponentOf(id)) && AtMostOne(tuples + {t}, AnyInstanceOf(id))
    {
      assert AtMostOne(tuples, AnyServiceOf(id)) && AtMostOne(tuples, AnyVersionOf(id));
      assert AtMostOne(tuples, AnyComponentOf(id)) && AtMostOne(tuples, AnyInstanceOf(id));
    }
  }

  /** Adding a tuple to a filter that selects nothing is an update that removes nothing. */
  lemma AddIsUpdate(tuples: set<Tuple>, add: Tuple, rem: Filter)
    requires Readable(rem) && Selected(tuples, rem) == {}
    ensures tuples + {add} == Update(tuples, add, rem)
  {
    UpdateReplaces(tuples, add, rem);
  }

  lemma CreateInstanceKeeps(tuples: set<Tuple>, id: int, createdBy: int, service: int, version: int)
    requires Functional(tuples) && Unlinked(tuples, id)
    ensures Functional(Apply(tuples, CreateInstance(id, createdBy, service, version)))
  {
    var t1 := tuples + {ServiceTuple(service, id)};
    AddIsUpdate(tuples, ServiceTuple(service, id), AnyServiceOf(id));
    FunctionalUpdate(tuples, ServiceTuple(service, id), AnyServiceOf(id));
    assert Selected(t1, AnyVersionOf(id)) == {} by {
      assert Selected(t1, AnyVersionOf(id)) == Selected(tuples, AnyVersionOf(id));
    }
    var t2 := t1 + {VersionTuple(id, version)};
    AddIsUpdate(t1, VersionTuple(id, version), AnyVersionOf(id));
    FunctionalUpdate(t1, VersionTuple(id, version), AnyVersionOf(id));
    var role := RoleTuple(createdBy, Entity(ComponentInstance, id));
    AddUnruled(t2, role);
    assert Apply(tuples, CreateInstance(id, createdBy, service, version)) == t2 + {role};
  }

  lemma UpdateInstanceKeeps(tuples: set<Tuple>, id: int, service: int, version: int)
    requires Functional(tuples)
    ensures Functional(ApplyInstanceUpdate(tuples, id, service, version))
  {
    FunctionalUpdate(tuples, ServiceTuple(service, id), AnyServiceOf(id));
    var t1 := if service != 0 && ServiceTuple(service, id) !in tuples
              then Update(tuples, ServiceTuple(service, id), AnyServiceOf(id)) else tuples;
    FunctionalUpdate(t1, VersionTuple(id, version), AnyVersionOf(id));
  }

  lemma DeleteShrinks(tuples: set<Tuple>, e: Entity)
    ensures ApplyDelete(tuples, e) <= tuples
  {
    RemoveBulkShrinks(if e.kind == SupportGroup then tuples - {SelfTuple(e.id)} else tuples, DeleteFilters(e));
  }

  lemma {:induction false} StepFunctional(tuples: set<Tuple>, ev: Event)
    requires Functional(tuples)
    requires ev.CreateInstance? ==> Unlinked(tuples, ev.id)
    ensures Functional(Apply(tuples, ev))
  {
    match ev
    case CreateInstance(id, by_, service, version) => CreateInstanceKeeps(tuples, id, by_, service, version);
    case UpdateInstance(id, service, version) => UpdateInstanceKeeps(tuples, id, service, version);
    case UpdateVersion(id, component) => FunctionalUpdate(tuples, ComponentTuple(id, component), AnyComponentOf(id));
    case UpdateMatch(id, instance) => FunctionalUpdate(tuples, MatchTuple(instance, id), AnyInstanceOf(id));
    case CreateVersion(id, by_) => AddUnruled(tuples, RoleTuple(by_, Entity(ComponentVersion, id)));
    case CreateMatch(id, by_) => AddUnruled(tuples, RoleTuple(by_, Entity(IssueMatch, id)));
    case CreateComponent(id, by_) => AddUnruled(tuples, RoleTuple(by_, Entity(Component, id)));
    case CreateService(id, by_) => AddUnruled(tuples, RoleTuple(by_, Entity(Service, id)));
    case CreateGroup(id, by_) => AddUnruled(tuples, RoleTuple(by_, Entity(SupportGroup, id)));
    case AddService(group, service) => AddUnruled(tuples, GroupServiceTuple(group, service));
    case AddMember(group, user) => AddUnruled(tuples, MemberTuple(user, group));
    case AddOwner(service, user) => AddUnruled(tuples, OwnerTuple(user, service));
    case RemoveService(_, _) => SubsetFunctional(tuples, Apply(tuples, ev));
    case RemoveMember(_, _) => SubsetFunctional(tuples, Apply(tuples, ev));
    case RemoveOwner(_, _) => SubsetFunctional(tuples, Apply(tuples, ev));
    case Delete(e) =>
      DeleteShrinks(tuples, e);
      SubsetFunctional(tuples, Apply(tuples, ev));
  }

  /** An event only adds tuples, if any, that say something about the entities it carries. */
  lemma StaysUnlinked(tuples: set<Tuple>, ev: Event, id: int)
    requires Unlinked(tuples, id) && !LinksInstance(ev, id)
    ensures Unlinked(Apply(tuples, ev), id)
  {
    forall t | t in Apply(tuples, ev)
      ensures !Matches(AnyServiceOf(id), t) && !Matches(AnyVersionOf(id), t)
    {
      if t in tuples {
        assert t !in Selected(tuples, AnyServiceOf(id)) && t !in Selected(tuples, AnyVersionOf(id));
      }
    }
  }

  lemma {:induction false} StaysUnlinkedInRun(tuples: set<Tuple>, events: seq<Event>, id: int)
    requires Unlinked(tuples, id) && forall j :: 0 <= j < |events| ==> !LinksInstance(events[j], id)
    ensures Unlinked(Run(tuples, events), id)
  {
    if events != [] {
      StaysUnlinkedInRun(tuples, events[..|events| - 1], id);
      StaysUnlinked(Run(tuples, events[..|events| - 1]), events[|events| - 1], id);
    }
  }

  /** In every run each instance keeps at most one service and one version, each version at most one component
      and each issue match at most one instance, and no tuple of another shape appears. */
  lemma {:induction false} RunsAreFunctional(tuples: set<Tuple>, events: seq<Event>)
    requires Functional(tuples) && AllShaped(tuples) && FreshIds(tuples, events)
    ensures Functional(Run(tuples, events)) && AllShaped(Run(tuples, events))
  {
    if events != [] {
      var n := |events| - 1;
      RunsAreFunctional(tuples, events[..n]);
      if events[n].CreateInstance? {
        StaysUnlinkedInRun(tuples, events[..n], events[n].id);
      }
      StepFunctional(Run(tuples, events[..n]), events[n]);
      ShapesKept(Run(tuples, events[..n]), events[n]);
    }
  }

  // ---------- After an update the tuple is the requested one ----------

  lemma UpdateFrame(tuples: set<Tuple>, add: Tuple, rem: Filter, f: Filter)
    requires Readable(rem) && !Matches(f, add) && forall t :: !(Matches(f, t) && Matches(rem, t))
    ensures Selected(Update(tuples, add, rem), f) == Selected(tuples, f)
  {
    UpdateReplaces(tuples, add, rem);
  }

  /** The service and the version of the instance are exactly the requested ones afterwards; a field the event
      does not carry keeps its tuple. */
  lemma InstanceUpdateExact(tuples: set<Tuple>, id: int, service: int, version: int)
    requires Functional(tuples)
    ensures var after := ApplyInstanceUpdate(tuples, id, service, version);
            && Selected(after, AnyServiceOf(id)) ==
                 (if service != 0 then {ServiceTuple(service, id)} else Selected(tuples, AnyServiceOf(id)))
            && Selected(after, AnyVersionOf(id)) ==
                 (if version != 0 then {VersionTuple(id, version)} else Selected(tuples, AnyVersionOf(id)))
  {
    var t1 := if service != 0 && ServiceTuple(service, id) !in tuples
              then Update(tuples, ServiceTuple(service, id), AnyServiceOf(id)) else tuples;
    assert AtMostOne(tuples, AnyServiceOf(id)) && AtMostOne(tuples, AnyVersionOf(id));
    OnlyTuple(tuples, ServiceTuple(service, id), AnyServiceOf(id));
    UpdateReplaces(tuples, ServiceTuple(service, id), AnyServiceOf(id));
    UpdateFrame(tuples, ServiceTuple(service, id), AnyServiceOf(id), AnyVersionOf(id));
    assert AtMostOne(t1, AnyVersionOf(id)) by {
      AtMostOneKept(tuples, ServiceTuple(service, id), AnyServiceOf(id), AnyVersionOf(id));
    }
    OnlyTuple(t1, VersionTuple(id, version), AnyVersionOf(id));
    UpdateReplaces(t1, VersionTuple(id, version), AnyVersionOf(id));
    UpdateFrame(t1, VersionTuple(id, version), AnyVersionOf(id), AnyServiceOf(id));
  }

  lemma OnlyTuple(tuples: set<Tuple>, t: Tuple, f: Filter)
    requires AtMostOne(tuples, f) && Matches(f, t)
    ensures t in tuples ==> Selected(tuples, f) == {t}
  {
  }

  /** The same for versions and issue matches, without any condition. */
  lemma VersionUpdateExact(tuples: set<Tuple>, id: int, component: int)
    ensures Selected(Apply(tuples, UpdateVersion(id, component)), AnyComponentOf(id)) == {ComponentTuple(id, component)}
  {
    UpdateReplaces(tuples, ComponentTuple(id, component), AnyComponentOf(id));
  }

  lemma MatchUpdateExact(tuples: set<Tuple>, id: int, instance: int)
    ensures Selected(Apply(tuples, UpdateMatch(id, instance)), AnyInstanceOf(id)) == {MatchTuple(instance, id)}
  {
    UpdateReplaces(tuples, MatchTuple(instance, id), AnyInstanceOf(id));
  }

  // ---------- Deletes ----------

  predicate Names(t: Tuple, e: Entity) {
    t.user == e || t.resource == e
  }

  lemma {:induction false} SelectedByAnyMember(tuples: set<Tuple>, filters: seq<Filter>, t: Tuple)
    ensures t in SelectedByAny(tuples, filters) <==>
              (t in tuples && exists i :: 0 <= i < |filters| && Matches(filters[i], t))
  {
    if filters != [] {
      var n := |filters| - 1;
      SelectedByAnyMember(tuples, filters[..n], t);
      if t in tuples && exists i :: 0 <= i < |filters| && Matches(filters[i], t) {
        var i :| 0 <= i < |filters| && Matches(filters[i], t);
        if i < n {
          assert Matches(filters[..n][i], t);
        }
      }
    }
  }

  /** Which filter of the delete handler selects a tuple that names the entity. */
  function DeletingFilter(t: Tuple, e: Entity): nat {
    if t.resource == e then 0
    else match e.kind
      case ComponentInstance => if t.resource.kind == ComponentVersion then 1 else 2
      case SupportGroup => if t.resource.kind == Service then 1 else 2
      case User => (match t.resource.kind
                    case Service => 1
                    case Component => 2
                    case ComponentVersion => 3
                    case ComponentInstance => 4
                    case IssueMatch => 5
                    case SupportGroup => 6
                    case _ => 7)
      case _ => 1
  }

  /** For a tuple of the known shapes, other than a support group's self tuple, there is exactly one such filter
      if the tuple names the entity, and none otherwise. */
  lemma ExactlyOneFilter(t: Tuple, e: Entity, i: nat)
    requires Shaped(t) && e.kind != Role && i < |DeleteFilters(e)|
    requires e.kind == SupportGroup ==> t != SelfTuple(e.id)
    ensures Matches(DeleteFilters(e)[i], t) <==> Names(t, e) && i == DeletingFilter(t, e)
  {
  }

  lemma FilterExists(t: Tuple, e: Entity)
    requires Shaped(t) && e.kind != Role && Names(t, e)
    ensures DeletingFilter(t, e) < |DeleteFilters(e)|
  {
  }

  /** The delete list has no duplicate, and afterwards exactly the tuples that name the entity, as user or as
      object, are gone; for support groups also when a self tuple exists. */
  lemma DeleteRemovesExactly(tuples: set<Tuple>, e: Entity)
    requires AllShaped(tuples) && e.kind != Role
    ensures var rest := if e.kind == SupportGroup then tuples - {SelfTuple(e.id)} else tuples;
            NoOverlap(rest, DeleteFilters(e)) && AllReadable(DeleteFilters(e))
    ensures ApplyDelete(tuples, e) == set t | t in tuples && !Names(t, e)
  {
    var filters := DeleteFilters(e);
    var rest := if e.kind == SupportGroup then tuples - {SelfTuple(e.id)} else tuples;
    forall t, i | t in rest && 0 <= i < |filters|
      ensures Matches(filters[i], t) <==> Names(t, e) && i == DeletingFilter(t, e)
    {
      ExactlyOneFilter(t, e, i);
    }
    forall t | t in tuples
      ensures t in ApplyDelete(tuples, e) <==> !Names(t, e)
    {
      SelectedByAnyMember(rest, filters, t);
      if Names(t, e) && t in rest {
        FilterExists(t, e);
        assert Matches(filters[DeletingFilter(t, e)], t);
      }
    }
    DeleteShrinks(tuples, e);
  }

  // ---------- Which tuples a run leaves ----------

  predicate Is(t: Tuple, userType: Kind, userId: int, relation: Relation, objectType: Kind, objectId: int) {
    t.user.kind == userType && t.user.id == userId && t.relation == relation &&
    t.resource.kind == objectType && t.resource.id == objectId
  }

  /** The event asks for the tuple. */
  predicate Adds(ev: Event, t: Tuple) {
    match ev
    case CreateInstance(id, by_, service, version) =>
      || Is(t, Role, by_, RelRole, ComponentInstance, id)
      || Is(t, Service, service, RelRelatedService, ComponentInstance, id)
      || Is(t, ComponentInstance, id, RelComponentInstance, ComponentVersion, version)
    case UpdateInstance(id, service, version) =>
      || (service != 0 && Is(t, Service, service, RelRelatedService, ComponentInstance, id))
      || (version != 0 && Is(t, ComponentInstance, id, RelComponentInstance, ComponentVersion, version))
    case CreateVersion(id, by_) => Is(t, Role, by_, RelRole, ComponentVersion, id)
    case UpdateVersion(id, component) => Is(t, ComponentVersion, id, RelComponentVersion, Component, component)
    case CreateMatch(id, by_) => Is(t, Role, by_, RelRole, IssueMatch, id)
    case UpdateMatch(id, instance) => Is(t, ComponentInstance, instance, RelComponentInstance, IssueMatch, id)
    case CreateComponent(id, by_) => Is(t, Role, by_, RelRole, Component, id)
    case CreateService(id, by_) => Is(t, Role, by_, RelRole, Service, id)
    case CreateGroup(id, by_) => Is(t, Role, by_, RelRole, SupportGroup, id)
    case AddService(group, service) => Is(t, SupportGroup, group, RelSupportGroup, Service, service)
    case AddMember(group, user) => Is(t, User, user, RelMember, SupportGroup, group)
    case AddOwner(service, user) => Is(t, User, user, RelOwner, Service, service)
    case _ => false
  }

  /** The event takes the tuple away: it says so, or gives the entity another one in its place, or deletes an entity
      that the tuple names. */
  predicate Removes(ev: Event, t: Tuple) {
    match ev
    case UpdateInstance(id, service, version) =>
      || (service != 0 && t.relation == RelRelatedService && t.resource == Entity(ComponentInstance, id) &&
          t.user != Entity(Service, service))
      || (version != 0 && t.relation == RelComponentInstance && t.user == Entity(ComponentInstance, id) &&
          t.resource.kind == ComponentVersion && t.resource.id != version)
    case UpdateVersion(id, component) =>
      t.relation == RelComponentVersion && t.user == Entity(ComponentVersion, id) &&
      t.resource.kind == Component && t.resource.id != component
    case UpdateMatch(id, instance) =>
      t.relation == RelComponentInstance && t.resource == Entity(IssueMatch, id) &&
      t.user != Entity(ComponentInstance, instance)
    case RemoveService(group, service) => Is(t, SupportGroup, group, RelSupportGroup, Service, service)
    case RemoveMember(group, user) => Is(t, User, user, RelMember, SupportGroup, group)
    case RemoveOwner(service, user) => Is(t, User, user, RelOwner, Service, service)
    case Delete(e) => e.kind != Role && (t.user == e || t.resource == e)
    case _ => false
  }

  /** An update of one tuple, where the filter selects what the event removes or the new tuple itself. */
  lemma UpdateMembership(tuples: set<Tuple>, add: Tuple, rem: Filter, t: Tuple)
    requires Readable(rem)
    ensures t in Update(tuples, add, rem) <==> t == add || (t in tuples && !Matches(rem, t))
  {
    UpdateReplaces(tuples, add, rem);
  }

  lemma ServiceUpdateMembership(tuples: set<Tuple>, id: int, service: int, t: Tuple)
    requires AtMostOne(tuples, AnyServiceOf(id)) && service != 0
    ensures var after := if ServiceTuple(service, id) !in tuples
                         then Update(tuples, ServiceTuple(service, id), AnyServiceOf(id)) else tuples;
            t in after <==>
              (Is(t, Service, service, RelRelatedService, ComponentInstance, id) ||
               (t in tuples && !(t.relation == RelRelatedService && t.resource == Entity(ComponentInstance, id) &&
                                 t.user != Entity(Service, service))))
  {
    UpdateMembership(tuples, ServiceTuple(service, id), AnyServiceOf(id), t);
    assert Is(t, Service, service, RelRelatedService, ComponentInstance, id) <==> t == ServiceTuple(service, id);
    assert Matches(AnyServiceOf(id), ServiceTuple(service, id));
  }

  lemma VersionOfInstanceMembership(tuples: set<Tuple>, id: int, version: int, t: Tuple)
    requires AtMostOne(tuples, AnyVersionOf(id)) && version != 0
    ensures var after := if VersionTuple(id, version) !in tuples
                         then Update(tuples, VersionTuple(id, version), AnyVersionOf(id)) else tuples;
            t in after <==>
              (Is(t, ComponentInstance, id, RelComponentInstance, ComponentVersion, version) ||
               (t in tuples && !(t.relation == RelComponentInstance && t.user == Entity(ComponentInstance, id) &&
                                 t.resource.kind == ComponentVersion && t.resource.id != version)))
  {
    UpdateMembership(tuples, VersionTuple(id, version), AnyVersionOf(id), t);
    assert Is(t, ComponentInstance, id, RelComponentInstance, ComponentVersion, version) <==>
           t == VersionTuple(id, version);
    assert Matches(AnyVersionOf(id), VersionTuple(id, version));
  }

  lemma InstanceUpdateMembership(tuples: set<Tuple>, id: int, service: int, version: int, t: Tuple)
    requires Functional(tuples)
    ensures t in ApplyInstanceUpdate(tuples, id, service, version) <==>
              (Adds(UpdateInstance(id, service, version), t) ||
               (t in tuples && !Removes(UpdateInstance(id, service, version), t)))
  {
    assert AtMostOne(tuples, AnyServiceOf(id)) && AtMostOne(tuples, AnyVersionOf(id));
    var t1 := if service != 0 && ServiceTuple(service, id) !in tuples
              then Update(tuples, ServiceTuple(service, id), AnyServiceOf(id)) else tuples;
    if service != 0 {
      ServiceUpdateMembership(tuples, id, service, t);
      AtMostOneKept(tuples, ServiceTuple(service, id), AnyServiceOf(id), AnyVersionOf(id));
    }
    if version != 0 {
      VersionOfInstanceMembership(t1, id, version, t);
    }
  }

  /** What one event does to one tuple. */
  lemma StepMembership(tuples: set<Tuple>, ev: Event, t: Tuple)
    requires Functional(tuples) && AllShaped(tuples)
    ensures t in Apply(tuples, ev) <==> Adds(ev, t) || (t in tuples && !Removes(ev, t))
  {
    match ev
    case UpdateInstance(id, service, version) => InstanceUpdateMembership(tuples, id, service, version, t);
    case UpdateVersion(id, component) =>
      UpdateMembership(tuples, ComponentTuple(id, component), AnyComponentOf(id), t);
    case UpdateMatch(id, instance) => UpdateMembership(tuples, MatchTuple(instance, id), AnyInstanceOf(id), t);
    case Delete(e) =>
      if e.kind != Role {
        DeleteRemovesExactly(tuples, e);
      }
    case _ =>
  }

  /** Some event asked for the tuple and none took it away since, or it was there and none took it away. */
  ghost predicate Remains(tuples: set<Tuple>, events: seq<Event>, t: Tuple) {
    || (exists i :: 0 <= i < |events| && Adds(events[i], t) && Undisturbed(events, i + 1, t))
    || (t in tuples && Undisturbed(events, 0, t))
  }

  predicate Undisturbed(events: seq<Event>, from: nat, t: Tuple) {
    forall j :: from <= j < |events| ==> !Removes(events[j], t)
  }

  lemma RemainsSnoc(tuples: set<Tuple>, events: seq<Event>, t: Tuple)
    requires events != []
    ensures var n := |events| - 1;
            Remains(tuples, events, t) <==>
              Adds(events[n], t) || (Remains(tuples, events[..n], t) && !Removes(events[n], t))
  {
    var n := |events| - 1;
    var shorter := events[..n];
    assert forall i :: 0 <= i <= n ==>
      (Undisturbed(events, i, t) <==> Undisturbed(shorter, i, t) && !Removes(events[n], t));
    if Adds(events[n], t) {
      assert Undisturbed(events, n + 1, t);
    }
    if Remains(tuples, shorter, t) && !Removes(events[n], t) && !(t in tuples && Undisturbed(shorter, 0, t)) {
      var i :| 0 <= i < n && Adds(shorter[i], t) && Undisturbed(shorter, i + 1, t);
      assert Adds(events[i], t) && Undisturbed(events, i + 1, t);
    }
    if Remains(tuples, events, t) && !Adds(events[n], t) && !(t in tuples && Undisturbed(events, 0, t)) {
      var i :| 0 <= i < |events| && Adds(events[i], t) && Undisturbed(events, i + 1, t);
      assert Adds(shorter[i], t) && Undisturbed(shorter, i + 1, t);
    }
  }

  /** After any run a tuple is in the store iff the last event that concerns it asked for it, or none did and it was
      there before: for members, owners, services of groups, roles of creators, and the links of instances, versions
      and issue matches. */
  lemma {:induction false} RunMembership(tuples: set<Tuple>, events: seq<Event>, t: Tuple)
    requires Functional(tuples) && AllShaped(tuples) && FreshIds(tuples, events)
    ensures t in Run(tuples, events) <==> Remains(tuples, events, t)
  {
    if events != [] {
      var n := |events| - 1;
      RunMembership(tuples, events[..n], t);
      RunsAreFunctional(tuples, events[..n]);
      StepMembership(Run(tuples, events[..n]), events[n], t);
      RemainsSnoc(tuples, events, t);
    }
  }
}
