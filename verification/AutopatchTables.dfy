/**
 The tables Autopatch works on, its phases as functions of whole tables, and what any number of them
 amount to. Rows are never removed: deleting a row clears its live flag.
 */
module AutopatchTables {
  import opened Common

  /** An INT UNSIGNED id, or the -1 that a NULL id is read as. */
  type RowId = i: int | -1 <= i

  datatype Instance = Instance(service: RowId, version: Option<RowId>, live: bool)
  datatype IssueMatch = IssueMatch(instance: RowId, live: bool)
  datatype Version = Version(component: RowId, name: string, live: bool)
  datatype Component = Component(live: bool)
  datatype Service = Service(name: string, live: bool)
  datatype PatchInfo = PatchInfo(serviceId: RowId, serviceName: string, versionId: RowId, versionName: string)

  datatype Tables = Tables(
    instances: map<RowId, Instance>,
    matches: map<RowId, IssueMatch>,
    versions: map<RowId, Version>,
    components: map<RowId, Component>,
    services: map<RowId, Service>,
    links: set<(RowId, RowId)>,          // (version, issue) rows of ComponentVersionIssue
    patches: multiset<PatchInfo>     // Patch rows without their generated ids
  )

  /** Row ids are positive, so the -1 that stands for a NULL version id names no row. */
  ghost predicate WellFormed(t: Tables) {
    forall v :: v in t.versions ==> v > 0
  }

  // ---------- Queries ----------

  const PAGE_LIMIT: nat := 1000

  predicate IsLeast(m: RowId, ids: set<RowId>) {
    m in ids && forall x :: x in ids ==> m <= x
  }

  /** The smallest of some ids. */
  function Least(ids: set<RowId>): (m: RowId)
    requires ids != {}
    ensures IsLeast(m, ids)
  {
    LeastExists(ids);
    var m :| IsLeast(m, ids);
    m
  }

  lemma {:induction false} LeastExists(ids: set<RowId>)
    requires ids != {}
    ensures exists m :: IsLeast(m, ids)
  {
    var y :| y in ids;
    var rest := ids - {y};
    if rest == {} {
      assert ids == {y};
      assert IsLeast(y, ids);
    } else {
      LeastExists(rest);
      var m :| IsLeast(m, rest);
      assert ids == rest + {y};
      assert IsLeast(if y < m then y else m, ids);
    }
  }

  /** ORDER BY id LIMIT n, as a set of ids. */
  function FirstIds(ids: set<RowId>, n: nat): (page: set<RowId>)
    ensures page <= ids
    ensures ids != {} && n > 0 ==> page != {}
  {
    if ids == {} || n == 0 then {}
    else {Least(ids)} + FirstIds(ids - {Least(ids)}, n - 1)
  }

  function Page(ids: set<RowId>): set<RowId> {
    FirstIds(ids, PAGE_LIMIT)
  }

  /** An id is on the page iff fewer than n ids come before it. */
  lemma {:induction false} FirstIdsExact(ids: set<RowId>, n: nat, x: RowId)
    ensures x in FirstIds(ids, n) <==> x in ids && |set y | y in ids && y < x| < n
  {
    var before := set y | y in ids && y < x;
    if x in ids && n > 0 {
      var m := Least(ids);
      if x == m {
        assert before == {};
      } else {
        var rest := set y | y in ids - {m} && y < x;
        FirstIdsExact(ids - {m}, n - 1, x);
        assert m in before && rest == before - {m};
        assert |rest| == |before| - 1;
      }
    }
  }

  lemma {:induction false} PageSize(ids: set<RowId>, n: nat)
    ensures |FirstIds(ids, n)| <= n
  {
    if ids != {} && n > 0 {
      PageSize(ids - {Least(ids)}, n - 1);
    }
  }

  lemma PageOfFew(ids: set<RowId>)
    requires |ids| <= PAGE_LIMIT
    ensures Page(ids) == ids
  {
    forall x | x in ids
      ensures x in Page(ids)
    {
      var before := set y | y in ids && y < x;
      assert x !in before;
      SubsetSize(before + {x}, ids);
      FirstIdsExact(ids, PAGE_LIMIT, x);
    }
  }

  lemma SubsetSize<T>(a: set<T>, b: set<T>)
    requires a <= b
    ensures |a| <= |b|
  {
    assert b == a + (b - a);
  }

  predicate Live(instances: map<RowId, Instance>, i: RowId) {
    i in instances && instances[i].live
  }

  predicate LiveVersion(versions: map<RowId, Version>, v: RowId) {
    v in versions && versions[v].live
  }

  /** Some live instance runs version v. */
  predicate InUse(instances: map<RowId, Instance>, v: RowId) {
    exists i :: i in instances && instances[i].live && instances[i].version == Some(v)
  }

  /** Some live instance runs version v for service s. */
  predicate PairInUse(instances: map<RowId, Instance>, s: RowId, v: RowId) {
    exists i :: i in instances && instances[i].live && instances[i].service == s && instances[i].version == Some(v)
  }

  predicate HasLiveVersion(versions: map<RowId, Version>, c: RowId) {
    exists v :: v in versions && versions[v].live && versions[v].component == c
  }

  /** fetchServiceAndVersionForInstance finds a row: the instance, its service and its version are live. */
  predicate HasPatchInfo(t: Tables, i: RowId) {
    && Live(t.instances, i)
    && t.instances[i].service in t.services && t.services[t.instances[i].service].live
    && t.instances[i].version.Some? && LiveVersion(t.versions, t.instances[i].version.value)
  }

  function InfoOf(t: Tables, i: RowId): PatchInfo
    requires HasPatchInfo(t, i)
  {
    var ci := t.instances[i];
    PatchInfo(ci.service, t.services[ci.service].name, ci.version.value, t.versions[ci.version.value].name)
  }

  /** getPatches. */
  function PatchesOf(t: Tables, gone: set<RowId>): set<PatchInfo> {
    set i | i in gone && HasPatchInfo(t, i) :: InfoOf(t, i)
  }

  function LiveAmong(t: Tables, ids: set<RowId>): set<RowId> {
    set i | i in ids && Live(t.instances, i)
  }

  /** A NULL version id is read back as -1. */
  function VersionIdOf(ci: Instance): RowId {
    if ci.version.Some? then ci.version.value else -1
  }

  /** getVersionIdsOfDisappearedInstances: one page of live instances. */
  function VersionIdsOf(t: Tables, gone: set<RowId>): set<RowId> {
    set i | i in Page(LiveAmong(t, gone)) && i in t.instances :: VersionIdOf(t.instances[i])
  }

  /** An empty id list does not filter. */
  function SelectedVersions(t: Tables, ids: set<RowId>): set<RowId> {
    set v | v in t.versions && t.versions[v].live && (ids == {} || v in ids)
  }

  /** getComponentIdsOfDisappearedInstances: one page of live versions. */
  function ComponentIdsOf(t: Tables, ids: set<RowId>): set<RowId> {
    set v | v in Page(SelectedVersions(t, ids)) && v in t.versions :: t.versions[v].component
  }

  // ---------- Phases ----------

  function DeleteMatches(t: Tables, gone: set<RowId>): Tables {
    t.(matches := map m | m in t.matches ::
         t.matches[m].(live := t.matches[m].live && t.matches[m].instance !in gone))
  }

  function Without(instances: map<RowId, Instance>, gone: set<RowId>): map<RowId, Instance> {
    map i | i in instances :: instances[i].(live := instances[i].live && i !in gone)
  }

  function DeleteInstances(t: Tables, gone: set<RowId>): Tables {
    t.(instances := Without(t.instances, gone))
  }

  function Unused(t: Tables, ids: set<RowId>): set<RowId> {
    set v | v in ids && !InUse(t.instances, v)
  }

  function Killed(versions: map<RowId, Version>, dead: set<RowId>): map<RowId, Version> {
    map v | v in versions :: versions[v].(live := versions[v].live && v !in dead)
  }

  lemma UnusedSnoc(t: Tables, done: set<RowId>, v: RowId)
    ensures Unused(t, done + {v}) == Unused(t, done) + if InUse(t.instances, v) then {} else {v}
  {
  }

  lemma KilledSnoc(versions: map<RowId, Version>, dead: set<RowId>, v: RowId)
    ensures Killed(versions, dead + {v}) ==
              if v in versions then Killed(versions, dead)[v := Killed(versions, dead)[v].(live := false)]
              else Killed(versions, dead)
  {
  }

  /** The tables once the versions in `done` have been looked at, out of those in ids. */
  function PartlyDeleted(t: Tables, done: set<RowId>, ids: set<RowId>): Tables {
    t.(versions := Killed(t.versions, Unused(t, done)),
       links := if Unused(t, done) == {} then t.links else set l | l in t.links && l.0 !in ids)
  }

  lemma DeleteOneMore(t: Tables, done: set<RowId>, ids: set<RowId>, v: RowId)
    ensures var t1 := PartlyDeleted(t, done, ids);
            PartlyDeleted(t, done + {v}, ids) ==
              if InUse(t.instances, v) then t1
              else t1.(versions := if v in t.versions then t1.versions[v := t1.versions[v].(live := false)]
                                   else t1.versions,
                       links := set l | l in t1.links && l.0 !in ids)
  {
    UnusedSnoc(t, done, v);
    KilledSnoc(t.versions, Unused(t, done), v);
  }

  /** deleteVersionsOfDisappearedInstances: as soon as one version is unused, the issue links of every
      version in the set are removed, and each unused version is deleted. */
  function DeleteVersions(t: Tables, ids: set<RowId>): Tables {
    PartlyDeleted(t, ids, ids)
  }

  function DeleteComponents(t: Tables, ids: set<RowId>): Tables {
    t.(components := map c | c in t.components ::
         t.components[c].(live := t.components[c].live && !(c in ids && !HasLiveVersion(t.versions, c))))
  }

  function Insertable(t: Tables, infos: set<PatchInfo>): set<PatchInfo> {
    set p | p in infos && !PairInUse(t.instances, p.serviceId, p.versionId)
  }

  lemma InsertableSnoc(t: Tables, done: set<PatchInfo>, p: PatchInfo)
    requires p !in done
    ensures multiset(Insertable(t, done + {p})) == multiset(Insertable(t, done)) +
              if PairInUse(t.instances, p.serviceId, p.versionId) then multiset{} else multiset{p}
  {
    if PairInUse(t.instances, p.serviceId, p.versionId) {
      assert Insertable(t, done + {p}) == Insertable(t, done);
    } else {
      assert Insertable(t, done + {p}) == Insertable(t, done) + {p};
    }
  }

  function InsertPatches(t: Tables, infos: set<PatchInfo>): Tables {
    t.(patches := t.patches + multiset(Insertable(t, infos)))
  }

  /** processAutopatchForSingleTag for the instances that disappeared between the tag's last two runs. */
  function PatchTag(t: Tables, gone: set<RowId>): Tables {
    if gone == {} then t else
      var infos := PatchesOf(t, gone);
      var t1 := DeleteMatches(t, gone);
      var versions := VersionIdsOf(t1, gone);
      var t2 := DeleteInstances(t1, gone);
      var components := ComponentIdsOf(t2, versions);
      var t3 := DeleteVersions(t2, versions);
      var t4 := DeleteComponents(t3, components);
      InsertPatches(t4, infos)
  }

  function PatchTags(t: Tables, tags: seq<set<RowId>>): Tables {
    if tags == [] then t else PatchTag(PatchTags(t, tags[..|tags| - 1]), tags[|tags| - 1])
  }

  function AllGone(tags: seq<set<RowId>>): set<RowId> {
    if tags == [] then {} else AllGone(tags[..|tags| - 1]) + tags[|tags| - 1]
  }

  // ---------- What the phases amount to ----------

  /** Versions and components that lose their last live instance or version, and no others, are dead. */
  function ExpectedVersions(t0: Tables, gone: set<RowId>): map<RowId, Version> {
    map v | v in t0.versions ::
      t0.versions[v].(live := t0.versions[v].live &&
        !(InUse(t0.instances, v) && !InUse(Without(t0.instances, gone), v)))
  }

  /** The components of t without those that lose their last live version, given the versions afterwards. */
  function EmptiedComponentsDie(t: Tables, versions: map<RowId, Version>): map<RowId, Component> {
    map c | c in t.components ::
      t.components[c].(live := t.components[c].live &&
        !(HasLiveVersion(t.versions, c) && !HasLiveVersion(versions, c)))
  }

  /** The (service, version) pairs with live rows that had a live instance and have none any more. */
  function ExpectedPatches(t0: Tables, gone: set<RowId>): set<PatchInfo> {
    set i | i in t0.instances && HasPatchInfo(t0, i) &&
            !PairInUse(Without(t0.instances, gone), t0.instances[i].service, t0.instances[i].version.value)
          :: InfoOf(t0, i)
  }

  /** A pair gets a patch iff its rows are live, it had a live instance and it has none any more; and it gets one
      only. */
  lemma PatchedPairs(t0: Tables, gone: set<RowId>, s: RowId, v: RowId)
    ensures (exists p :: p in ExpectedPatches(t0, gone) && p.serviceId == s && p.versionId == v) <==>
              (s in t0.services && t0.services[s].live && LiveVersion(t0.versions, v) &&
               PairInUse(t0.instances, s, v) && !PairInUse(Without(t0.instances, gone), s, v))
    ensures forall p, q | p in ExpectedPatches(t0, gone) && q in ExpectedPatches(t0, gone) ::
              p.serviceId == q.serviceId && p.versionId == q.versionId ==> p == q
  {
    if s in t0.services && t0.services[s].live && LiveVersion(t0.versions, v) &&
       PairInUse(t0.instances, s, v) && !PairInUse(Without(t0.instances, gone), s, v) {
      var i :| i in t0.instances && t0.instances[i].live && t0.instances[i].service == s &&
               t0.instances[i].version == Some(v);
      assert HasPatchInfo(t0, i) && InfoOf(t0, i) in ExpectedPatches(t0, gone);
    }
  }

  /** The effect that does not depend on the page limit: everything but which versions die. */
  ghost predicate RowsOutcome(t0: Tables, t: Tables, gone: set<RowId>) {
    && t.instances == Without(t0.instances, gone)
    && t.matches == DeleteMatches(t0, gone).matches
    && t.services == t0.services
    && t.patches == t0.patches + multiset(ExpectedPatches(t0, gone))
  }

  /** Versions keep their data, never come back to life, and live on while in use. */
  ghost predicate VersionsSound(t0: Tables, t: Tables) {
    && t.versions.Keys == t0.versions.Keys
    && (forall v :: v in t0.versions ==>
          && t.versions[v].component == t0.versions[v].component
          && t.versions[v].name == t0.versions[v].name
          && (t.versions[v].live ==> t0.versions[v].live)
          && (t0.versions[v].live && InUse(t.instances, v) ==> t.versions[v].live))
  }

  /** A component dies iff it had a live version before and has none after. */
  ghost predicate ComponentsOutcome(t0: Tables, t: Tables) {
    t.components == EmptiedComponentsDie(t0, t.versions)
  }

  /** A version dies iff it had a live instance before and has none after. */
  ghost predicate VersionsOutcome(t0: Tables, t: Tables, gone: set<RowId>) {
    t.versions == ExpectedVersions(t0, gone)
  }

  lemma WithoutTwice(instances: map<RowId, Instance>, a: set<RowId>, b: set<RowId>)
    ensures Without(Without(instances, a), b) == Without(instances, a + b)
  {
  }

  lemma TagRows(t: Tables, gone: set<RowId>)
    ensures var t' := PatchTag(t, gone);
            && t'.instances == Without(t.instances, gone)
            && t'.matches == DeleteMatches(t, gone).matches
            && t'.services == t.services
            && t'.patches == t.patches + multiset(set p | p in PatchesOf(t, gone) &&
                               !PairInUse(Without(t.instances, gone), p.serviceId, p.versionId))
  {
    if gone == {} {
      assert Without(t.instances, gone) == t.instances;
      assert DeleteMatches(t, gone).matches == t.matches;
    }
  }

  /** The patches of one more tag are exactly the pairs whose last live instance it takes away. */
  lemma PatchesSplit(t0: Tables, t: Tables, before: set<RowId>, gone: set<RowId>)
    requires t.instances == Without(t0.instances, before) && t.services == t0.services && VersionsSound(t0, t)
    ensures var inserted := set p | p in PatchesOf(t, gone) &&
                              !PairInUse(Without(t.instances, gone), p.serviceId, p.versionId);
            && inserted !! ExpectedPatches(t0, before)
            && inserted + ExpectedPatches(t0, before) == ExpectedPatches(t0, before + gone)
  {
    WithoutTwice(t0.instances, before, gone);
    var after := Without(t.instances, gone);
    var inserted := set p | p in PatchesOf(t, gone) && !PairInUse(after, p.serviceId, p.versionId);
    forall p | p in inserted
      ensures p in ExpectedPatches(t0, before + gone) && p !in ExpectedPatches(t0, before)
    {
      var i :| i in gone && HasPatchInfo(t, i) && InfoOf(t, i) == p;
      assert HasPatchInfo(t0, i) && InfoOf(t0, i) == p;
      assert PairInUse(t.instances, p.serviceId, p.versionId);
    }
    forall p | p in ExpectedPatches(t0, before)
      ensures p in ExpectedPatches(t0, before + gone)
    {
      assert !PairInUse(after, p.serviceId, p.versionId);
    }
    forall p | p in ExpectedPatches(t0, before + gone) && p !in ExpectedPatches(t0, before)
      ensures p in inserted
    {
      var i :| i in t0.instances && HasPatchInfo(t0, i) && InfoOf(t0, i) == p &&
               !PairInUse(after, t0.instances[i].service, t0.instances[i].version.value);
      assert PairInUse(t.instances, p.serviceId, p.versionId);
      var j :| j in t.instances && t.instances[j].live && t.instances[j].service == p.serviceId &&
               t.instances[j].version == Some(p.versionId);
      assert j in gone;
      assert InUse(t.instances, p.versionId);
      assert HasPatchInfo(t, j) && InfoOf(t, j) == p;
    }
  }

  lemma TagKeepsVersionsSound(t0: Tables, t: Tables, gone: set<RowId>)
    requires VersionsSound(t0, t)
    ensures VersionsSound(t0, PatchTag(t, gone))
  {
    if gone != {} {
      var t' := PatchTag(t, gone);
      forall v | v in t0.versions && t0.versions[v].live && InUse(t'.instances, v)
        ensures t'.versions[v].live
      {
        assert InUse(t.instances, v);
      }
    }
  }

  lemma DisjointUnion<T>(base: multiset<T>, a: set<T>, b: set<T>)
    requires a !! b
    ensures base + multiset(b) + multiset(a) == base + multiset(a + b)
  {
  }

  /** Whatever the order of the tags and however many rows they touch: instances and issue matches die
      iff their instance disappeared in some tag, and each pair that lost its last live instance gets
      exactly one patch. */
  lemma {:induction false} RowsAfterTags(t0: Tables, tags: seq<set<RowId>>)
    ensures RowsOutcome(t0, PatchTags(t0, tags), AllGone(tags)) && VersionsSound(t0, PatchTags(t0, tags))
  {
    if tags == [] {
      assert Without(t0.instances, {}) == t0.instances;
      assert DeleteMatches(t0, {}).matches == t0.matches;
      assert ExpectedPatches(t0, {}) == {} by {
        forall i | i in t0.instances && HasPatchInfo(t0, i)
          ensures PairInUse(t0.instances, t0.instances[i].service, t0.instances[i].version.value)
        {
        }
      }
    } else {
      var n := |tags| - 1;
      var t, before, gone := PatchTags(t0, tags[..n]), AllGone(tags[..n]), tags[n];
      RowsAfterTags(t0, tags[..n]);
      RowsAfterTag(t0, t, before, gone);
    }
  }

  lemma RowsAfterTag(t0: Tables, t: Tables, before: set<RowId>, gone: set<RowId>)
    requires RowsOutcome(t0, t, before) && VersionsSound(t0, t)
    ensures RowsOutcome(t0, PatchTag(t, gone), before + gone) && VersionsSound(t0, PatchTag(t, gone))
  {
    TagKeepsVersionsSound(t0, t, gone);
    var t' := PatchTag(t, gone);
    assert t'.instances == Without(t0.instances, before + gone) && t'.matches == DeleteMatches(t, gone).matches &&
           t'.services == t0.services by {
      TagRows(t, gone);
      WithoutTwice(t0.instances, before, gone);
    }
    MatchesTwice(t0, t, before, gone);
    PatchesAfterTag(t0, t, before, gone);
  }

  lemma MatchesTwice(t0: Tables, t: Tables, before: set<RowId>, gone: set<RowId>)
    requires t.matches == DeleteMatches(t0, before).matches
    ensures DeleteMatches(t, gone).matches == DeleteMatches(t0, before + gone).matches
  {
  }

  lemma PatchesAfterTag(t0: Tables, t: Tables, before: set<RowId>, gone: set<RowId>)
    requires RowsOutcome(t0, t, before) && VersionsSound(t0, t)
    ensures PatchTag(t, gone).patches == t0.patches + multiset(ExpectedPatches(t0, before + gone))
  {
    var inserted := set p | p in PatchesOf(t, gone) &&
                      !PairInUse(Without(t.instances, gone), p.serviceId, p.versionId);
    var earlier := ExpectedPatches(t0, before);
    var all := ExpectedPatches(t0, before + gone);
    assert inserted !! earlier && inserted + earlier == all by {
      PatchesSplit(t0, t, before, gone);
    }
    assert PatchTag(t, gone).patches == t.patches + multiset(inserted) by {
      TagRows(t, gone);
    }
    DisjointUnion(t0.patches, inserted, earlier);
  }

  // ---------- Versions and components ----------

  /** Every version that loses its last live instance has an instance on the page that is looked at. */
  ghost predicate PageCovers(t: Tables, gone: set<RowId>) {
    forall v :: LiveVersion(t.versions, v) && InUse(t.instances, v) && !InUse(Without(t.instances, gone), v) ==>
      v in VersionIdsOf(t, gone)
  }

  lemma StaysInUse(instances: map<RowId, Instance>, gone: set<RowId>, i: RowId, v: RowId)
    requires Live(instances, i) && instances[i].version == Some(v) && i !in gone
    ensures InUse(Without(instances, gone), v)
  {
    assert Without(instances, gone)[i] == instances[i];
  }

  lemma FewGoneAreCovered(t: Tables, gone: set<RowId>)
    requires |LiveAmong(t, gone)| <= 1000
    ensures PageCovers(t, gone)
  {
    PageOfFew(LiveAmong(t, gone));
    forall v | LiveVersion(t.versions, v) && InUse(t.instances, v) && !InUse(Without(t.instances, gone), v)
      ensures v in VersionIdsOf(t, gone)
    {
      var i :| i in t.instances && t.instances[i].live && t.instances[i].version == Some(v);
      if i !in gone {
        StaysInUse(t.instances, gone, i, v);
      }
      assert i in Page(LiveAmong(t, gone));
      assert VersionIdOf(t.instances[i]) == v;
    }
  }

  lemma VersionIdsIgnoreMatches(t: Tables, gone: set<RowId>)
    ensures VersionIdsOf(DeleteMatches(t, gone), gone) == VersionIdsOf(t, gone)
  {
    assert LiveAmong(DeleteMatches(t, gone), gone) == LiveAmong(t, gone);
  }

  function ListedVersionsDie(t: Tables, gone: set<RowId>): map<RowId, Version> {
    map v | v in t.versions ::
      t.versions[v].(live := t.versions[v].live &&
        !(gone != {} && v in VersionIdsOf(t, gone) && !InUse(Without(t.instances, gone), v)))
  }

  /** A version dies in a tag iff it is on the page and has no live instance left. */
  lemma TagVersions(t: Tables, gone: set<RowId>)
    ensures PatchTag(t, gone).versions == ListedVersionsDie(t, gone)
  {
    if gone != {} {
      VersionIdsIgnoreMatches(t, gone);
      var ids, t2 := VersionIdsOf(t, gone), DeleteInstances(DeleteMatches(t, gone), gone);
      assert PatchTag(t, gone).versions == Killed(t2.versions, Unused(t2, ids));
      KilledByUse(t, gone, ids);
    }
  }

  lemma KilledByUse(t: Tables, gone: set<RowId>, ids: set<RowId>)
    requires gone != {} && ids == VersionIdsOf(t, gone)
    ensures Killed(t.versions, Unused(DeleteInstances(DeleteMatches(t, gone), gone), ids)) == ListedVersionsDie(t, gone)
  {
  }

  /** Deleting a version id of a page means that some live instance ran it. */
  lemma ListedVersionsInUse(t: Tables, gone: set<RowId>, v: RowId)
    requires v in VersionIdsOf(t, gone) && v > 0
    ensures InUse(t.instances, v)
  {
    var i :| i in Page(LiveAmong(t, gone)) && i in t.instances && VersionIdOf(t.instances[i]) == v;
    assert t.instances[i].live && t.instances[i].version == Some(v);
  }

  /** Exactly when a tag deletes the right versions: when the page covers them. */
  lemma TagVersionsExact(t: Tables, gone: set<RowId>)
    requires WellFormed(t) && gone != {}
    ensures PatchTag(t, gone).versions == ExpectedVersions(t, gone) <==> PageCovers(t, gone)
  {
    TagVersions(t, gone);
    var t' := PatchTag(t, gone);
    if PageCovers(t, gone) {
      forall v | v in t.versions
        ensures t'.versions[v] == ExpectedVersions(t, gone)[v]
      {
        if v in VersionIdsOf(t, gone) {
          ListedVersionsInUse(t, gone, v);
        }
      }
    } else {
      var v :| LiveVersion(t.versions, v) && InUse(t.instances, v) && !InUse(Without(t.instances, gone), v) &&
               v !in VersionIdsOf(t, gone);
      assert t'.versions[v] != ExpectedVersions(t, gone)[v];
    }
  }

  function Ids(n: nat): (ids: set<RowId>)
    ensures forall i: RowId :: i in ids <==> 1 <= i <= n
    ensures |ids| == n
  {
    if n == 0 then {} else Ids(n - 1) + {n}
  }

  /** One instance too many for a page of n: n instances of version 1 and instance n + 1 of version 2. */
  function Crowded(n: nat): Tables {
    var ids := Ids(n + 1);
    Tables(map i | i in ids :: Instance(7, Some(if i <= n then 1 else 2), true),
           map[], map[1 := Version(3, "1.0", true), 2 := Version(3, "2.0", true)], map[3 := Component(true)],
           map[7 := Service("s", true)], {}, multiset{})
  }

  /** When all of them disappear, version 2 survives without an instance. */
  lemma {:induction false} CrowdedTagLeavesVersion(n: nat)
    requires n == 1000
    ensures !InUse(PatchTag(Crowded(n), Ids(n + 1)).instances, 2)
    ensures 2 in PatchTag(Crowded(n), Ids(n + 1)).versions && PatchTag(Crowded(n), Ids(n + 1)).versions[2].live
    ensures !PageCovers(Crowded(n), Ids(n + 1))
  {
    CrowdedPage(n);
    var t, gone := Crowded(n), Ids(n + 1);
    TagRows(t, gone);
    TagVersions(t, gone);
  }

  lemma CrowdedPage(n: nat)
    requires n == 1000
    ensures 2 !in VersionIdsOf(Crowded(n), Ids(n + 1))
    ensures InUse(Crowded(n).instances, 2) && !InUse(Without(Crowded(n).instances, Ids(n + 1)), 2)
  {
    var t, gone := Crowded(n), Ids(n + 1);
    assert LiveAmong(t, gone) == gone;
    LastIdIsOffPage(n);
    assert t.instances[n + 1].version == Some(2);
  }

  lemma LastIdIsOffPage(n: nat)
    ensures n + 1 !in FirstIds(Ids(n + 1), n)
  {
    var ids := Ids(n + 1);
    FirstIdsExact(ids, n, n + 1);
    assert (set y | y in ids && y < n + 1) == Ids(n);
  }

  /** Every component that is looked at has a live version, whatever versions are asked for. */
  lemma ListedComponentsHaveVersions(t: Tables, ids: set<RowId>)
    ensures forall c :: c in ComponentIdsOf(t, ids) ==> HasLiveVersion(t.versions, c)
  {
    forall c | c in ComponentIdsOf(t, ids)
      ensures HasLiveVersion(t.versions, c)
    {
      var v :| v in Page(SelectedVersions(t, ids)) && v in t.versions && t.versions[v].component == c;
      assert v in SelectedVersions(t, ids);
    }
  }

  /** Deleting the unused ones among some components that had a live version, and among them all that lost
      theirs, deletes exactly the components that lost theirs. */
  lemma EmptiedAmong(t: Tables, t3: Tables, ids: set<RowId>)
    requires t3.components == t.components
    requires forall c :: c in ids ==> HasLiveVersion(t.versions, c)
    requires forall c :: HasLiveVersion(t.versions, c) && !HasLiveVersion(t3.versions, c) ==> c in ids
    ensures DeleteComponents(t3, ids).components == EmptiedComponentsDie(t, t3.versions)
  {
  }

  /** A component dies in a tag iff it had a live version before and has none after, also when the
      version set is empty and the query for its components is not filtered. */
  lemma TagComponents(t: Tables, gone: set<RowId>)
    ensures PatchTag(t, gone).components == EmptiedComponentsDie(t, PatchTag(t, gone).versions)
  {
    if gone != {} {
      VersionIdsIgnoreMatches(t, gone);
      var ids := VersionIdsOf(t, gone);
      var t2 := DeleteInstances(DeleteMatches(t, gone), gone);
      var t3 := DeleteVersions(t2, ids);
      var t' := PatchTag(t, gone);
      assert t'.versions == t3.versions;
      assert t'.components == DeleteComponents(t3, ComponentIdsOf(t2, ids)).components;
      ListedComponentsHaveVersions(t2, ids);
      forall c | HasLiveVersion(t.versions, c) && !HasLiveVersion(t'.versions, c)
        ensures c in ComponentIdsOf(t2, ids)
      {
        LostVersionIsSelected(t, gone, c);
      }
      EmptiedAmong(t, t3, ComponentIdsOf(t2, ids));
    }
  }

  /** The version ids come from one page of instances, so all of them fit on the page of versions. */
  lemma LostVersionIsSelected(t: Tables, gone: set<RowId>, c: RowId)
    requires gone != {}
    requires HasLiveVersion(t.versions, c) && !HasLiveVersion(PatchTag(t, gone).versions, c)
    ensures c in ComponentIdsOf(DeleteInstances(DeleteMatches(t, gone), gone), VersionIdsOf(t, gone))
  {
    TagVersions(t, gone);
    var ids := VersionIdsOf(t, gone);
    var t2 := DeleteInstances(DeleteMatches(t, gone), gone);
    var v :| v in t.versions && t.versions[v].live && t.versions[v].component == c;
    assert ListedVersionsDie(t, gone)[v].component == c;
    assert v in ids;
    var selected := SelectedVersions(t2, ids);
    assert v in selected;
    assert |selected| <= PAGE_LIMIT by {
      ImageSize(t, Page(LiveAmong(t, gone)), ids);
      PageSize(LiveAmong(t, gone), PAGE_LIMIT);
      SubsetSize(selected, ids);
    }
    PageOfFew(selected);
  }

  /** There are no more version ids than instances they were read from. */
  lemma {:induction false} ImageSize(t: Tables, from: set<RowId>, ids: set<RowId>)
    requires forall v :: v in ids ==> exists i :: i in from && i in t.instances && VersionIdOf(t.instances[i]) == v
    ensures |ids| <= |from|
  {
    if ids != {} {
      var v :| v in ids;
      var i :| i in from && i in t.instances && VersionIdOf(t.instances[i]) == v;
      ImageSize(t, from - {i}, ids - {v});
    }
  }

  lemma ListedVersionsOutcome(t0: Tables, t: Tables, before: set<RowId>, gone: set<RowId>)
    requires WellFormed(t0) && PageCovers(t, gone)
    requires t.instances == Without(t0.instances, before) && t.versions == ExpectedVersions(t0, before)
    ensures ListedVersionsDie(t, gone) == ExpectedVersions(t0, before + gone)
  {
    forall v | v in t0.versions
      ensures ListedVersionsDie(t, gone)[v] == ExpectedVersions(t0, before + gone)[v]
    {
      VersionOutcome(t0, t, before, gone, v);
    }
  }

  /** Losing the last live version by stages is losing it. */
  lemma EmptiedTwice(t0: Tables, t: Tables, versions: map<RowId, Version>)
    requires VersionsSound(t0, t) && ComponentsOutcome(t0, t) && t.versions.Keys == versions.Keys
    requires forall v :: v in versions ==> versions[v].component == t.versions[v].component
    requires forall v :: v in versions && versions[v].live ==> t.versions[v].live
    ensures EmptiedComponentsDie(t, versions) == EmptiedComponentsDie(t0, versions)
  {
    forall c | c in t0.components
      ensures EmptiedComponentsDie(t, versions)[c] == EmptiedComponentsDie(t0, versions)[c]
    {
      if HasLiveVersion(t.versions, c) {
        LiveVersionsOnlyShrink(t0.versions, t.versions, c);
      }
      if HasLiveVersion(versions, c) {
        LiveVersionsOnlyShrink(t.versions, versions, c);
      }
    }
  }

  lemma LiveVersionsOnlyShrink(wide: map<RowId, Version>, narrow: map<RowId, Version>, c: RowId)
    requires wide.Keys == narrow.Keys
    requires forall v :: v in wide ==> narrow[v].component == wide[v].component
    requires forall v :: v in wide && narrow[v].live ==> wide[v].live
    requires HasLiveVersion(narrow, c)
    ensures HasLiveVersion(wide, c)
  {
  }

  lemma VersionOutcome(t0: Tables, t: Tables, before: set<RowId>, gone: set<RowId>, v: RowId)
    requires WellFormed(t0) && v in t0.versions && PageCovers(t, gone)
    requires t.instances == Without(t0.instances, before) && t.versions == ExpectedVersions(t0, before)
    ensures ListedVersionsDie(t, gone)[v] == ExpectedVersions(t0, before + gone)[v]
  {
    WithoutTwice(t0.instances, before, gone);
    var after := Without(t.instances, gone);
    if InUse(t.instances, v) {
      assert InUse(t0.instances, v);
    }
    if InUse(after, v) {
      assert InUse(t.instances, v);
    }
    if v in VersionIdsOf(t, gone) {
      ListedVersionsInUse(t, gone, v);
    }
    if gone == {} {
      assert after == t.instances;
    }
  }

  /** Whatever the order of the tags and however many rows they touch: a component dies iff it had a live version
      before and has none after. */
  lemma {:induction false} ComponentsAfterTags(t0: Tables, tags: seq<set<RowId>>)
    ensures ComponentsOutcome(t0, PatchTags(t0, tags))
  {
    if tags == [] {
      assert EmptiedComponentsDie(t0, t0.versions) == t0.components;
    } else {
      var n := |tags| - 1;
      var t, gone := PatchTags(t0, tags[..n]), tags[n];
      ComponentsAfterTags(t0, tags[..n]);
      RowsAfterTags(t0, tags[..n]);
      TagComponents(t, gone);
      TagVersions(t, gone);
      EmptiedTwice(t0, t, ListedVersionsDie(t, gone));
    }
  }

  /** Each tag's page covers the versions that lose their last live instance when its turn comes. */
  ghost predicate PagesCover(t0: Tables, tags: seq<set<RowId>>) {
    forall k :: 0 <= k < |tags| ==> PageCovers(PatchTags(t0, tags[..k]), tags[k])
  }

  lemma PagesCoverSnoc(t0: Tables, tags: seq<set<RowId>>)
    requires tags != []
    ensures var n := |tags| - 1;
            PagesCover(t0, tags) <==> PagesCover(t0, tags[..n]) && PageCovers(PatchTags(t0, tags[..n]), tags[n])
  {
    var n := |tags| - 1;
    assert forall k :: 0 <= k < n ==> tags[..n][..k] == tags[..k] && tags[..n][k] == tags[k];
    if PagesCover(t0, tags[..n]) && PageCovers(PatchTags(t0, tags[..n]), tags[n]) {
      forall k | 0 <= k < |tags|
        ensures PageCovers(PatchTags(t0, tags[..k]), tags[k])
      {
        assert k < n ==> PageCovers(PatchTags(t0, tags[..n][..k]), tags[..n][k]);
      }
    }
    if PagesCover(t0, tags) {
      forall k | 0 <= k < n
        ensures PageCovers(PatchTags(t0, tags[..n][..k]), tags[..n][k])
      {
        assert PageCovers(PatchTags(t0, tags[..k]), tags[k]);
      }
    }
  }

  /** A version that lost its last instance unnoticed is never looked at again. */
  lemma {:induction false} SurvivorStays(t0: Tables, tags: seq<set<RowId>>, k: nat, v: RowId)
    requires k <= |tags| && v > 0
    requires LiveVersion(PatchTags(t0, tags[..k]).versions, v) && !InUse(PatchTags(t0, tags[..k]).instances, v)
    ensures LiveVersion(PatchTags(t0, tags).versions, v) && !InUse(PatchTags(t0, tags).instances, v)
  {
    var n := |tags| - 1;
    if k == |tags| {
      assert tags[..k] == tags;
    } else {
      assert tags[..n][..k] == tags[..k];
      SurvivorStays(t0, tags[..n], k, v);
      var t, gone := PatchTags(t0, tags[..n]), tags[n];
      TagVersions(t, gone);
      TagRows(t, gone);
      if v in VersionIdsOf(t, gone) {
        ListedVersionsInUse(t, gone, v);
      }
    }
  }

  /** If some page does not cover, a version is left over at the end. */
  lemma UncoveredSurvives(t0: Tables, tags: seq<set<RowId>>, k: nat)
    requires WellFormed(t0) && k < |tags| && !PageCovers(PatchTags(t0, tags[..k]), tags[k])
    ensures !VersionsOutcome(t0, PatchTags(t0, tags), AllGone(tags))
  {
    var t, gone := PatchTags(t0, tags[..k]), tags[k];
    RowsAfterTags(t0, tags[..k]);
    var v :| LiveVersion(t.versions, v) && InUse(t.instances, v) && !InUse(Without(t.instances, gone), v) &&
             v !in VersionIdsOf(t, gone);
    assert LiveVersion(t0.versions, v) && InUse(t0.instances, v);
    assert tags[..k + 1][..k] == tags[..k];
    TagVersions(t, gone);
    TagRows(t, gone);
    SurvivorStays(t0, tags, k + 1, v);
    RowsAfterTags(t0, tags);
  }

  lemma {:induction false} CoveredVersions(t0: Tables, tags: seq<set<RowId>>)
    requires WellFormed(t0) && PagesCover(t0, tags)
    ensures VersionsOutcome(t0, PatchTags(t0, tags), AllGone(tags))
  {
    if tags == [] {
      assert Without(t0.instances, {}) == t0.instances;
      assert ExpectedVersions(t0, {}) == t0.versions;
    } else {
      var n := |tags| - 1;
      PagesCoverSnoc(t0, tags);
      CoveredVersions(t0, tags[..n]);
      RowsAfterTags(t0, tags[..n]);
      TagVersions(PatchTags(t0, tags[..n]), tags[n]);
      ListedVersionsOutcome(t0, PatchTags(t0, tags[..n]), AllGone(tags[..n]), tags[n]);
    }
  }

  /** Over all tags, in the order they were visited: exactly the versions that lost their last live instance die iff
      every page covered them. */
  lemma {:induction false} VersionsAfterTagsExact(t0: Tables, tags: seq<set<RowId>>)
    requires WellFormed(t0)
    ensures VersionsOutcome(t0, PatchTags(t0, tags), AllGone(tags)) <==> PagesCover(t0, tags)
  {
    if PagesCover(t0, tags) {
      CoveredVersions(t0, tags);
    } else {
      var k :| 0 <= k < |tags| && !PageCovers(PatchTags(t0, tags[..k]), tags[k]);
      UncoveredSurvives(t0, tags, k);
    }
  }

  /** Pages of 1000 cover whenever no tag has more live instances to lose. */
  lemma FewGoneArePaged(t0: Tables, tags: seq<set<RowId>>)
    requires forall k :: 0 <= k < |tags| ==> |LiveAmong(t0, tags[k])| <= 1000
    ensures PagesCover(t0, tags)
  {
    forall k | 0 <= k < |tags|
      ensures PageCovers(PatchTags(t0, tags[..k]), tags[k])
    {
      var t := PatchTags(t0, tags[..k]);
      RowsAfterTags(t0, tags[..k]);
      SubsetSize(LiveAmong(t, tags[k]), LiveAmong(t0, tags[k]));
      FewGoneAreCovered(t, tags[k]);
    }
  }

  // ---------- The outcome, row by row ----------

  /** p is due: its service and version rows are live and named so, a live instance ran that version for that service,
      and all that did are gone. */
  ghost predicate Due(t0: Tables, gone: set<RowId>, p: PatchInfo) {
    && p.serviceId in t0.services && t0.services[p.serviceId] == Service(p.serviceName, true)
    && p.versionId in t0.versions && t0.versions[p.versionId].live && t0.versions[p.versionId].name == p.versionName
    && (exists i :: i in t0.instances && t0.instances[i] == Instance(p.serviceId, Some(p.versionId), true))
    && (forall i :: i in t0.instances && t0.instances[i] == Instance(p.serviceId, Some(p.versionId), true) ==>
          i in gone)
  }

  /** Instances and matches die iff their instance is gone, and each due patch is inserted once, and no other. */
  ghost predicate RowsAsPromised(t0: Tables, t: Tables, gone: set<RowId>) {
    && t.services == t0.services
    && t.instances.Keys == t0.instances.Keys
    && (forall i :: i in t0.instances ==>
          && t.instances[i].service == t0.instances[i].service && t.instances[i].version == t0.instances[i].version
          && (t.instances[i].live <==> t0.instances[i].live && i !in gone))
    && t.matches.Keys == t0.matches.Keys
    && (forall m :: m in t0.matches ==>
          && t.matches[m].instance == t0.matches[m].instance
          && (t.matches[m].live <==> t0.matches[m].live && t0.matches[m].instance !in gone))
    && (forall p :: t.patches[p] == t0.patches[p] + One(Due(t0, gone, p)))
  }

  lemma PairWithout(instances: map<RowId, Instance>, gone: set<RowId>, s: RowId, v: RowId)
    ensures PairInUse(Without(instances, gone), s, v) <==>
              exists i :: i in instances && instances[i] == Instance(s, Some(v), true) && i !in gone
  {
    if exists i :: i in instances && instances[i] == Instance(s, Some(v), true) && i !in gone {
      var i :| i in instances && instances[i] == Instance(s, Some(v), true) && i !in gone;
      assert Without(instances, gone)[i] == instances[i];
    }
  }

  lemma DueExactly(t0: Tables, gone: set<RowId>, p: PatchInfo)
    ensures p in ExpectedPatches(t0, gone) <==> Due(t0, gone, p)
  {
    var s, v := p.serviceId, p.versionId;
    PairWithout(t0.instances, gone, s, v);
    PairWithout(t0.instances, {}, s, v);
    assert Without(t0.instances, {}) == t0.instances;
    PatchedPairs(t0, gone, s, v);
    if Due(t0, gone, p) {
      var i :| i in t0.instances && t0.instances[i] == Instance(s, Some(v), true);
      assert HasPatchInfo(t0, i) && InfoOf(t0, i) == p;
    }
  }

  lemma RowsMeaning(t0: Tables, t: Tables, gone: set<RowId>)
    requires RowsOutcome(t0, t, gone)
    ensures RowsAsPromised(t0, t, gone)
  {
    forall p
      ensures t.patches[p] == t0.patches[p] + One(Due(t0, gone, p))
    {
      DueExactly(t0, gone, p);
    }
  }

  /** A version dies iff it had a live instance before and all its live instances are gone. */
  ghost predicate VersionsAsPromised(t0: Tables, t: Tables, gone: set<RowId>) {
    forall v :: v in t0.versions ==>
      v in t.versions &&
      (t.versions[v].live <==>
         && t0.versions[v].live
         && !(&& (exists i :: i in t0.instances && t0.instances[i].live && t0.instances[i].version == Some(v))
              && (forall i :: i in t0.instances && t0.instances[i].live && t0.instances[i].version == Some(v) ==>
                    i in gone)))
  }

  lemma VersionsMeaning(t0: Tables, t: Tables, gone: set<RowId>)
    requires VersionsSound(t0, t)
    ensures VersionsOutcome(t0, t, gone) <==> VersionsAsPromised(t0, t, gone)
  {
    forall v | v in t0.versions
      ensures InUse(t0.instances, v) <==>
                exists i :: i in t0.instances && t0.instances[i].live && t0.instances[i].version == Some(v)
      ensures InUse(Without(t0.instances, gone), v) <==>
                exists i :: i in t0.instances && t0.instances[i].live && t0.instances[i].version == Some(v) &&
                            i !in gone
    {
      UseWithout(t0.instances, gone, v);
    }
    if VersionsAsPromised(t0, t, gone) {
      assert t.versions == ExpectedVersions(t0, gone);
    }
  }

  lemma UseWithout(instances: map<RowId, Instance>, gone: set<RowId>, v: RowId)
    ensures InUse(Without(instances, gone), v) <==>
              exists i :: i in instances && instances[i].live && instances[i].version == Some(v) && i !in gone
  {
    if exists i :: i in instances && instances[i].live && instances[i].version == Some(v) && i !in gone {
      var i :| i in instances && instances[i].live && instances[i].version == Some(v) && i !in gone;
      StaysInUse(instances, gone, i, v);
    }
  }

  /** A component dies iff it had a live version before and has none after. */
  ghost predicate ComponentsAsPromised(t0: Tables, t: Tables) {
    && t.components.Keys == t0.components.Keys
    && (forall c :: c in t0.components ==>
          (t.components[c].live <==>
             && t0.components[c].live
             && !(&& (exists v :: v in t0.versions && t0.versions[v].live && t0.versions[v].component == c)
                  && (forall v :: v in t.versions && t.versions[v].component == c ==> !t.versions[v].live))))
  }

  lemma ComponentsMeaning(t0: Tables, t: Tables)
    requires ComponentsOutcome(t0, t)
    ensures ComponentsAsPromised(t0, t)
  {
    forall c | c in t0.components
      ensures HasLiveVersion(t0.versions, c) <==>
                exists v :: v in t0.versions && t0.versions[v].live && t0.versions[v].component == c
      ensures HasLiveVersion(t.versions, c) <==>
                !(forall v :: v in t.versions && t.versions[v].component == c ==> !t.versions[v].live)
    {
    }
  }

  /** The live gone instances with smaller ids. */
  ghost function GoneBefore(t: Tables, gone: set<RowId>, i: RowId): set<RowId> {
    set j | j in gone && j in t.instances && t.instances[j].live && j < i
  }

  /** The page of version ids: those of the live gone instances that fewer than 1000 others come before. */
  lemma VersionQuery(t: Tables, gone: set<RowId>, x: RowId)
    ensures x in VersionIdsOf(t, gone) <==>
              exists i :: i in gone && i in t.instances && t.instances[i].live && |GoneBefore(t, gone, i)| < 1000 &&
                (t.instances[i].version == Some(x) || (t.instances[i].version.None? && x == -1))
  {
    var live := LiveAmong(t, gone);
    forall i: RowId
      ensures i in Page(live) <==>
                i in gone && i in t.instances && t.instances[i].live && |GoneBefore(t, gone, i)| < 1000
    {
      FirstIdsExact(live, PAGE_LIMIT, i);
      assert (set j | j in live && j < i) == GoneBefore(t, gone, i);
    }
    if x in VersionIdsOf(t, gone) {
      var i :| i in Page(live) && i in t.instances && VersionIdOf(t.instances[i]) == x;
      assert i in gone;
    }
    if exists i :: i in gone && i in t.instances && t.instances[i].live && |GoneBefore(t, gone, i)| < 1000 &&
                   (t.instances[i].version == Some(x) || (t.instances[i].version.None? && x == -1)) {
      var i :| i in gone && i in t.instances && t.instances[i].live && |GoneBefore(t, gone, i)| < 1000 &&
               (t.instances[i].version == Some(x) || (t.instances[i].version.None? && x == -1));
      assert i in Page(live) && VersionIdOf(t.instances[i]) == x;
    }
  }

  /** A live version that is asked for: by id, or any if no id is given. */
  predicate AskedFor(t: Tables, ids: set<RowId>, v: RowId) {
    v in t.versions && t.versions[v].live && (|ids| == 0 || v in ids)
  }

  ghost function AskedBefore(t: Tables, ids: set<RowId>, v: RowId): set<RowId> {
    set w | w in t.versions && AskedFor(t, ids, w) && w < v
  }

  /** The page of components: those of the versions asked for that fewer than 1000 others come before. */
  lemma ComponentQuery(t: Tables, ids: set<RowId>, c: RowId)
    ensures c in ComponentIdsOf(t, ids) <==>
              exists v :: AskedFor(t, ids, v) && |AskedBefore(t, ids, v)| < 1000 && t.versions[v].component == c
  {
    var selected := SelectedVersions(t, ids);
    forall v: RowId
      ensures v in Page(selected) <==> AskedFor(t, ids, v) && |AskedBefore(t, ids, v)| < 1000
    {
      FirstIdsExact(selected, PAGE_LIMIT, v);
      assert (set w | w in selected && w < v) == AskedBefore(t, ids, v);
    }
    if c in ComponentIdsOf(t, ids) {
      var v :| v in Page(selected) && v in t.versions && t.versions[v].component == c;
      assert AskedFor(t, ids, v);
    }
    if exists v :: AskedFor(t, ids, v) && |AskedBefore(t, ids, v)| < 1000 && t.versions[v].component == c {
      var v :| AskedFor(t, ids, v) && |AskedBefore(t, ids, v)| < 1000 && t.versions[v].component == c;
      assert v in Page(selected);
    }
  }

  /** Some live instance that is not gone runs version v. */
  ghost predicate StillRuns(t: Tables, gone: set<RowId>, v: RowId) {
    exists i :: i in t.instances && t.instances[i].live && t.instances[i].version == Some(v) && i !in gone
  }

  /** As soon as one listed version has lost its instances, the links of all listed versions go, and no other. */
  lemma TagLinks(t: Tables, gone: set<RowId>, l: (RowId, RowId))
    requires gone != {}
    ensures l in PatchTag(t, gone).links <==>
              (l in t.links &&
               (l.0 !in VersionIdsOf(t, gone) || forall v :: v in VersionIdsOf(t, gone) ==> StillRuns(t, gone, v)))
  {
    VersionIdsIgnoreMatches(t, gone);
    var ids := VersionIdsOf(t, gone);
    var t2 := DeleteInstances(DeleteMatches(t, gone), gone);
    forall v: RowId
      ensures InUse(t2.instances, v) <==> StillRuns(t, gone, v)
    {
      UseWithout(t.instances, gone, v);
    }
    assert PatchTag(t, gone).links == DeleteVersions(t2, ids).links;
    NoneUnused(t2, ids);
  }

  lemma NoneUnused(t: Tables, ids: set<RowId>)
    ensures Unused(t, ids) == {} <==> forall v :: v in ids ==> InUse(t.instances, v)
  {
    if Unused(t, ids) == {} {
      forall v | v in ids
        ensures InUse(t.instances, v)
      {
        assert v !in Unused(t, ids);
      }
    }
  }

  /** Over all tags no link is added, and the links of versions that are never listed stay. */
  lemma {:induction false} LinksAfterTags(t0: Tables, tags: seq<set<RowId>>, l: (RowId, RowId))
    ensures l in PatchTags(t0, tags).links ==> l in t0.links
    ensures l in t0.links &&
            (forall k :: 0 <= k < |tags| ==> l.0 !in VersionIdsOf(PatchTags(t0, tags[..k]), tags[k])) ==>
              l in PatchTags(t0, tags).links
  {
    if tags != [] {
      var n := |tags| - 1;
      LinksAfterTags(t0, tags[..n], l);
      assert forall k :: 0 <= k < n ==> tags[..n][..k] == tags[..k] && tags[..n][k] == tags[k];
      if tags[n] != {} {
        TagLinks(PatchTags(t0, tags[..n]), tags[n], l);
      }
    }
  }

  /** The whole outcome of any sequence of tags. */
  lemma {:induction false} TagsMeaning(t0: Tables, tags: seq<set<RowId>>)
    ensures var t, gone := PatchTags(t0, tags), AllGone(tags);
            && RowsAsPromised(t0, t, gone) && VersionsSound(t0, t) && ComponentsAsPromised(t0, t)
            && (WellFormed(t0) ==> (VersionsAsPromised(t0, t, gone) <==> PagesCover(t0, tags)))
  {
    var t, gone := PatchTags(t0, tags), AllGone(tags);
    RowsAfterTags(t0, tags);
    RowsMeaning(t0, t, gone);
    ComponentsAfterTags(t0, tags);
    ComponentsMeaning(t0, t);
    if WellFormed(t0) {
      VersionsAfterTagsExact(t0, tags);
      VersionsMeaning(t0, t, gone);
    }
  }

  // ---------- Running it again ----------

  /** The instances that disappeared, and their matches, are all dead. */
  ghost predicate Settled(t: Tables, gone: set<RowId>) {
    && (forall i :: i in gone ==> !Live(t.instances, i))
    && (forall m :: m in t.matches && t.matches[m].instance in gone ==> !t.matches[m].live)
  }

  lemma OutcomeIsSettled(t0: Tables, t: Tables, gone: set<RowId>)
    requires RowsOutcome(t0, t, gone)
    ensures Settled(t, gone)
  {
  }

  /** A tag whose disappeared instances and their matches are all dead changes no live flag, link or patch: the
      unfiltered query for components only finds components that have a live version. */
  lemma QuietTag(t: Tables, gone: set<RowId>)
    requires Settled(t, gone)
    ensures PatchTag(t, gone) == t
  {
    assert LiveAmong(t, gone) == {};
    assert VersionIdsOf(t, gone) == {};
    assert PatchesOf(t, gone) == {};
    assert DeleteMatches(t, gone) == t;
    assert DeleteInstances(t, gone) == t;
    assert DeleteVersions(t, {}) == t by {
      assert Unused(t, {}) == {};
    }
    var ids := ComponentIdsOf(t, {});
    ListedComponentsHaveVersions(t, {});
    assert DeleteComponents(t, ids) == t;
    assert InsertPatches(t, {}) == t by {
      assert Insertable(t, {}) == {};
    }
  }

  lemma {:induction false} QuietTags(t: Tables, tags: seq<set<RowId>>)
    requires Settled(t, AllGone(tags))
    ensures PatchTags(t, tags) == t
  {
    if tags != [] {
      QuietTags(t, tags[..|tags| - 1]);
      QuietTag(t, tags[|tags| - 1]);
    }
  }

  lemma {:induction false} InAllGone(tags: seq<set<RowId>>, k: nat)
    requires k < |tags|
    ensures tags[k] <= AllGone(tags)
  {
    if k < |tags| - 1 {
      InAllGone(tags[..|tags| - 1], k);
    }
  }

  lemma {:induction false} VisitedAgain(tags: seq<set<RowId>>, again: seq<set<RowId>>)
    requires forall gone :: gone in again ==> gone in tags
    ensures AllGone(again) <= AllGone(tags)
  {
    if again != [] {
      VisitedAgain(tags, again[..|again| - 1]);
      assert again[|again| - 1] in tags;
      var k :| 0 <= k < |tags| && tags[k] == again[|again| - 1];
      InAllGone(tags, k);
    }
  }

  /** Autopatch is idempotent: visiting the same tags again, in any order and any number of times,
      changes no live flag, no link and no patch. */
  lemma {:induction false} AgainChangesNothing(t0: Tables, tags: seq<set<RowId>>, again: seq<set<RowId>>)
    requires forall gone :: gone in again ==> gone in tags
    ensures PatchTags(PatchTags(t0, tags), again) == PatchTags(t0, tags)
  {
    RowsAfterTags(t0, tags);
    OutcomeIsSettled(t0, PatchTags(t0, tags), AllGone(tags));
    VisitedAgain(tags, again);
    QuietTags(PatchTags(t0, tags), again);
  }
}
