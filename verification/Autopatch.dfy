/**
 Autopatch as the program runs it: loops over Go maps (visited in any order) that read and change the
 tables one row at a time, for calls whose database statements all succeed.
 */
module Autopatch {
  import opened AutopatchTables
  import opened Common

  datatype ScannerRun = ScannerRun(tag: string, completed: bool, live: bool)

  /** The run ids of one tag, in the order of the rows. */
  function IdsOfTag(rows: seq<(string, nat)>, tag: string): (ids: seq<nat>)
    ensures forall id :: id in ids <==> (tag, id) in rows
  {
    if rows == [] then []
    else
      var n := |rows| - 1;
      IdsOfTag(rows[..n], tag) + if rows[n].0 == tag then [rows[n].1] else []
  }

  /** rows answers the query for completed, undeleted runs: within a tag, newest (largest id) first. */
  ghost predicate AnswersRunQuery(rows: seq<(string, nat)>, runs: map<nat, ScannerRun>) {
    && (forall row :: row in rows <==>
          row.1 in runs && runs[row.1] == ScannerRun(row.0, true, true))
    && (forall j, k :: 0 <= j < k < |rows| && rows[j].0 == rows[k].0 ==> rows[j].1 > rows[k].1)
  }

  ghost predicate Descending(ids: seq<nat>) {
    forall j, k :: 0 <= j < k < |ids| ==> ids[j] > ids[k]
  }

  lemma {:induction false} TagIdsDescend(rows: seq<(string, nat)>, tag: string)
    requires forall j, k :: 0 <= j < k < |rows| && rows[j].0 == rows[k].0 ==> rows[j].1 > rows[k].1
    ensures Descending(IdsOfTag(rows, tag))
  {
    if rows != [] {
      var n := |rows| - 1;
      TagIdsDescend(rows[..n], tag);
      var before := IdsOfTag(rows[..n], tag);
      if rows[n].0 == tag {
        forall j | 0 <= j < |before|
          ensures before[j] > rows[n].1
        {
          assert before[j] in before;
          assert (tag, before[j]) in rows[..n];
          var i :| 0 <= i < n && rows[..n][i] == (tag, before[j]);
        }
        assert IdsOfTag(rows, tag) == before + [rows[n].1];
      } else {
        assert IdsOfTag(rows, tag) == before;
      }
    }
  }

  /** A completed, undeleted run of the tag. */
  predicate Completed(runs: map<nat, ScannerRun>, tag: string, run: nat) {
    run in runs && runs[run] == ScannerRun(tag, true, true)
  }

  /** latest and previous are the tag's two newest completed runs. */
  ghost predicate NewestTwo(runs: map<nat, ScannerRun>, tag: string, latest: nat, previous: nat) {
    && Completed(runs, tag, latest) && Completed(runs, tag, previous) && previous < latest
    && (forall run: nat :: Completed(runs, tag, run) ==> run == latest || run <= previous)
  }

  function Tracked(tracker: set<(nat, RowId)>, run: nat): set<RowId> {
    set row | row in tracker && row.0 == run :: row.1
  }

  /** Instance i was seen by the tag's second newest completed run and not by its newest one. */
  ghost predicate Disappeared(runs: map<nat, ScannerRun>, tracker: set<(nat, RowId)>, tag: string, i: RowId) {
    exists latest: nat, previous: nat :: NewestTwo(runs, tag, latest, previous) &&
      (previous, i) in tracker && (latest, i) !in tracker
  }

  function GoneOfRuns(tracker: set<(nat, RowId)>, tagRuns: seq<nat>): set<RowId> {
    if |tagRuns| < 2 then {} else Tracked(tracker, tagRuns[1]) - Tracked(tracker, tagRuns[0])
  }

  /** The list of a tag holds its completed runs, newest first. */
  lemma RunsOfTag(rows: seq<(string, nat)>, runs: map<nat, ScannerRun>, tag: string)
    requires AnswersRunQuery(rows, runs)
    ensures Descending(IdsOfTag(rows, tag))
    ensures forall run: nat :: run in IdsOfTag(rows, tag) <==> Completed(runs, tag, run)
  {
    TagIdsDescend(rows, tag);
    assert forall run: nat :: Completed(runs, tag, run) <==> (tag, run) in rows;
  }

  lemma NewestAreFirst(runs: map<nat, ScannerRun>, tag: string, ids: seq<nat>, latest: nat, previous: nat)
    requires Descending(ids) && forall run: nat :: run in ids <==> Completed(runs, tag, run)
    ensures NewestTwo(runs, tag, latest, previous) <==> |ids| >= 2 && latest == ids[0] && previous == ids[1]
  {
    if NewestTwo(runs, tag, latest, previous) {
      var i :| 0 <= i < |ids| && ids[i] == latest;
      var j :| 0 <= j < |ids| && ids[j] == previous;
      assert ids[0] in ids && ids[1] in ids;
    }
    if |ids| >= 2 && latest == ids[0] && previous == ids[1] {
      assert ids[0] in ids && ids[1] in ids;
      forall run: nat | Completed(runs, tag, run)
        ensures run == latest || run <= previous
      {
        var k :| 0 <= k < |ids| && ids[k] == run;
      }
    }
  }

  /** The two first ids of a tag's list are its two newest runs, so the list yields what disappeared. */
  lemma GoneIsDisappeared(rows: seq<(string, nat)>, runs: map<nat, ScannerRun>, tracker: set<(nat, RowId)>,
                          tag: string, i: RowId)
    requires AnswersRunQuery(rows, runs)
    ensures i in GoneOfRuns(tracker, IdsOfTag(rows, tag)) <==> Disappeared(runs, tracker, tag, i)
  {
    var ids := IdsOfTag(rows, tag);
    RunsOfTag(rows, runs, tag);
    if |ids| >= 2 {
      NewestAreFirst(runs, tag, ids, ids[0], ids[1]);
      assert i in Tracked(tracker, ids[1]) <==> (ids[1], i) in tracker;
      assert i in Tracked(tracker, ids[0]) <==> (ids[0], i) in tracker;
    }
    if Disappeared(runs, tracker, tag, i) {
      var latest: nat, previous: nat :| NewestTwo(runs, tag, latest, previous) &&
        (previous, i) in tracker && (latest, i) !in tracker;
      NewestAreFirst(runs, tag, ids, latest, previous);
    }
  }

  ghost predicate GroupsRows(byTag: map<string, seq<nat>>, rows: seq<(string, nat)>) {
    && (forall tag :: tag in byTag <==> IdsOfTag(rows, tag) != [])
    && (forall tag :: tag in byTag ==> byTag[tag] == IdsOfTag(rows, tag))
  }

  lemma GroupOneMore(byTag: map<string, seq<nat>>, rows: seq<(string, nat)>, tag: string, id: nat)
    requires GroupsRows(byTag, rows)
    ensures GroupsRows(byTag[tag := (if tag in byTag then byTag[tag] else []) + [id]], rows + [(tag, id)])
  {
    assert (rows + [(tag, id)])[..|rows|] == rows;
  }

  lemma MatchesOfBoth(t: Tables, a: set<RowId>, b: set<RowId>)
    ensures DeleteMatches(DeleteMatches(t, a), b) == DeleteMatches(t, a + b)
  {
  }

  /** The visited sets are those of the tags that have at least two runs, among the tags done. */
  ghost predicate Visited(tracker: set<(nat, RowId)>, byTag: map<string, seq<nat>>, done: set<string>,
                          visited: seq<set<RowId>>) {
    && (forall tag :: tag in done && tag in byTag && |byTag[tag]| >= 2 ==> GoneOfRuns(tracker, byTag[tag]) in visited)
    && (forall gone :: gone in visited ==> exists tag :: tag in byTag && gone == GoneOfRuns(tracker, byTag[tag]))
  }

  lemma VisitTag(tracker: set<(nat, RowId)>, byTag: map<string, seq<nat>>, done: set<string>,
                 visited: seq<set<RowId>>, tag: string)
    requires Visited(tracker, byTag, done, visited) && tag in byTag
    ensures var longer := if |byTag[tag]| >= 2 then visited + [GoneOfRuns(tracker, byTag[tag])] else visited;
            Visited(tracker, byTag, done + {tag}, longer)
  {
    var gone := GoneOfRuns(tracker, byTag[tag]);
    assert forall x :: x in visited + [gone] <==> x in visited || x == gone;
  }

  class SqlDatabase {
    var instances: map<RowId, Instance>
    var matches: map<RowId, IssueMatch>
    var versions: map<RowId, Version>
    var components: map<RowId, Component>
    var services: map<RowId, Service>
    var links: set<(RowId, RowId)>
    var patches: multiset<PatchInfo>
    const runs: map<nat, ScannerRun>
    const tracker: set<(nat, RowId)>

    ghost function View(): Tables
      reads this
    {
      Tables(instances, matches, versions, components, services, links, patches)
    }

    constructor (t: Tables, runs: map<nat, ScannerRun>, tracker: set<(nat, RowId)>)
      ensures View() == t && this.runs == runs && this.tracker == tracker
    {
      instances, matches, versions, components := t.instances, t.matches, t.versions, t.components;
      services, links, patches := t.services, t.links, t.patches;
      this.runs, this.tracker := runs, tracker;
    }

    /** autopatch.go lines 26 to 64. */
    method FetchCompletedRunsWithNewestFirst(rows: seq<(string, nat)>) returns (byTag: map<string, seq<nat>>)
      ensures forall tag :: tag in byTag <==> IdsOfTag(rows, tag) != []
      ensures forall tag :: tag in byTag ==> byTag[tag] == IdsOfTag(rows, tag)
    {
      byTag := map[];
      for k := 0 to |rows|
        invariant GroupsRows(byTag, rows[..k])
      {
        var (tag, id) := rows[k];
        GroupOneMore(byTag, rows[..k], tag, id);
        byTag := byTag[tag := (if tag in byTag then byTag[tag] else []) + [id]];
        assert rows[..k + 1] == rows[..k] + [(tag, id)];
      }
      assert rows[..|rows|] == rows;
    }

    /** autopatch.go lines 157 to 171. */
    static method GetDisappearedInstances(latest: set<RowId>, secondLatest: set<RowId>)
      returns (disappeared: seq<RowId>)
      ensures Elems(disappeared) == secondLatest - latest
      ensures |disappeared| == |secondLatest - latest|
    {
      disappeared := [];
      var todo := secondLatest;
      while todo != {}
        invariant todo <= secondLatest
        invariant Elems(disappeared) == (secondLatest - todo) - latest
        invariant |disappeared| == |Elems(disappeared)|
        decreases todo
      {
        var inst :| inst in todo;
        todo := todo - {inst};
        if inst !in latest {
          assert Elems(disappeared + [inst]) == Elems(disappeared) + {inst};
          disappeared := disappeared + [inst];
        }
      }
    }

    /** autopatch.go lines 173 to 190. */
    method GetPatches(disappeared: seq<RowId>) returns (infos: set<PatchInfo>)
      ensures infos == PatchesOf(View(), Elems(disappeared))
      ensures forall p :: p in infos <==> exists i :: i in disappeared && HasLiveRows(i, p)
    {
      infos := {};
      var t := Tables(instances, matches, versions, components, services, links, patches);
      for k := 0 to |disappeared|
        invariant infos == PatchesOf(t, Elems(disappeared[..k]))
      {
        assert Elems(disappeared[..k + 1]) == Elems(disappeared[..k]) + {disappeared[k]};
        if HasPatchInfo(t, disappeared[k]) {
          infos := infos + {InfoOf(t, disappeared[k])};
        }
      }
      assert disappeared[..|disappeared|] == disappeared;
      forall p
        ensures p in infos <==> exists i :: i in disappeared && HasLiveRows(i, p)
      {
        assert forall i :: HasLiveRows(i, p) <==> HasPatchInfo(t, i) && InfoOf(t, i) == p;
      }
    }

    /** The joined row of instance i: the ids and names of its service and version, all three rows live. */
    ghost predicate HasLiveRows(i: RowId, p: PatchInfo)
      reads this
    {
      && i in instances && instances[i] == Instance(p.serviceId, Some(p.versionId), true)
      && p.serviceId in services && services[p.serviceId] == Service(p.serviceName, true)
      && p.versionId in versions && versions[p.versionId].live && versions[p.versionId].name == p.versionName
    }

    /** autopatch.go lines 206 to 217, for one instance. */
    method DeleteIssueMatchesOf(di: RowId)
      modifies this
      ensures View() == DeleteMatches(old(View()), {di})
    {
      ghost var t := View();
      var ids := set m | m in matches && matches[m].live && matches[m].instance == di;
      ghost var all := ids;
      while ids != {}
        invariant ids <= all
        invariant View() == t.(matches := matches) && matches.Keys == t.matches.Keys
        invariant forall m :: m in matches ==>
          matches[m] == t.matches[m].(live := t.matches[m].live && m !in all - ids)
        decreases ids
      {
        var m :| m in ids;
        matches := matches[m := matches[m].(live := false)];
        ids := ids - {m};
      }
      assert matches == DeleteMatches(t, {di}).matches;
    }

    /** autopatch.go lines 204 to 223. */
    method DeleteIssueMatchesOfDisappearedInstances(disappeared: seq<RowId>)
      modifies this
      ensures View() == DeleteMatches(old(View()), Elems(disappeared))
    {
      ghost var t := View();
      assert DeleteMatches(t, {}) == t;
      for k := 0 to |disappeared|
        invariant View() == DeleteMatches(t, Elems(disappeared[..k]))
      {
        DeleteIssueMatchesOf(disappeared[k]);
        MatchesOfBoth(t, Elems(disappeared[..k]), {disappeared[k]});
        assert Elems(disappeared[..k + 1]) == Elems(disappeared[..k]) + {disappeared[k]};
      }
      assert disappeared[..|disappeared|] == disappeared;
    }

    /** autopatch.go lines 225 to 245; an id filter that is never empty here. */
    method GetVersionIdsOfDisappearedInstances(disappeared: seq<RowId>) returns (ids: set<RowId>)
      ensures ids == VersionIdsOf(View(), Elems(disappeared))
    {
      var t := Tables(instances, matches, versions, components, services, links, patches);
      var res := Page(LiveAmong(t, Elems(disappeared)));
      ids := {};
      ghost var all := res;
      while res != {}
        invariant res <= all
        invariant ids == set i | i in all - res && i in instances :: VersionIdOf(instances[i])
        decreases res
      {
        var ci :| ci in res;
        ids := ids + {VersionIdOf(instances[ci])};
        res := res - {ci};
      }
    }

    /** autopatch.go lines 321 to 329. */
    method DeleteDisappearedInstances(disappeared: seq<RowId>)
      modifies this
      ensures View() == DeleteInstances(old(View()), Elems(disappeared))
    {
      ghost var t := View();
      for k := 0 to |disappeared|
        invariant View() == t.(instances := instances) && instances == Without(t.instances, Elems(disappeared[..k]))
      {
        var di := disappeared[k];
        if di in instances {
          instances := instances[di := instances[di].(live := false)];
        }
        assert Elems(disappeared[..k + 1]) == Elems(disappeared[..k]) + {di};
      }
      assert disappeared[..|disappeared|] == disappeared;
    }

    /** autopatch.go lines 247 to 269. */
    method GetComponentIdsOfDisappearedInstances(ids: set<RowId>) returns (cs: set<RowId>)
      ensures cs == ComponentIdsOf(View(), ids)
    {
      var t := Tables(instances, matches, versions, components, services, links, patches);
      var res := Page(SelectedVersions(t, ids));
      cs := {};
      ghost var all := res;
      while res != {}
        invariant res <= all
        invariant cs == set v | v in all - res && v in versions :: versions[v].component
        decreases res
      {
        var cv :| cv in res;
        cs := cs + {versions[cv].component};
        res := res - {cv};
      }
    }

    /** autopatch.go lines 283 to 288: the inner loop strips every version of the set. */
    method RemoveIssuesOfAll(ids: set<RowId>)
      modifies this`links
      ensures links == set l | l in old(links) && l.0 !in ids
    {
      var todo := ids;
      while todo != {}
        invariant todo <= ids
        invariant links == set l | l in old(links) && l.0 !in ids - todo
        decreases todo
      {
        var v :| v in todo;
        links := set l | l in links && l.0 != v;
        todo := todo - {v};
      }
    }

    /** autopatch.go lines 271 to 297. */
    method DeleteVersionsOfDisappearedInstances(ids: set<RowId>)
      modifies this
      ensures View() == DeleteVersions(old(View()), ids)
    {
      ghost var t := View();
      var todo := ids;
      assert PartlyDeleted(t, {}, ids) == t by {
        assert Unused(t, {}) == {};
      }
      while todo != {}
        invariant todo <= ids
        invariant View() == PartlyDeleted(t, ids - todo, ids)
        decreases todo
      {
        var v :| v in todo;
        DeleteOneMore(t, ids - todo, ids, v);
        assert ids - (todo - {v}) == ids - todo + {v};
        todo := todo - {v};
        if !InUse(instances, v) {
          RemoveIssuesOfAll(ids);
          if v in versions {
            versions := versions[v := versions[v].(live := false)];
          }
        }
      }
      assert ids - todo == ids;
    }

    /** autopatch.go lines 299 to 319. */
    method DeleteComponentsOfDisappearedInstances(ids: set<RowId>)
      modifies this
      ensures View() == DeleteComponents(old(View()), ids)
    {
      ghost var t := View();
      var todo := ids;
      while todo != {}
        invariant todo <= ids
        invariant View() == t.(components := components) && components.Keys == t.components.Keys
        invariant forall c :: c in components ==>
          components[c] == t.components[c].(live := t.components[c].live &&
            !(c in ids - todo && !HasLiveVersion(t.versions, c)))
        decreases todo
      {
        var c :| c in todo;
        todo := todo - {c};
        if !HasLiveVersion(versions, c) && c in components {
          components := components[c := components[c].(live := false)];
        }
      }
      assert components == DeleteComponents(t, ids).components;
    }

    /** autopatch.go lines 194 to 202 and 396 to 428. */
    method InsertPatchesIfNoInstanceExists(infos: set<PatchInfo>)
      modifies this
      ensures View() == InsertPatches(old(View()), infos)
    {
      ghost var t := View();
      ghost var done := {};
      var todo := infos;
      while todo != {}
        invariant done == infos - todo && todo <= infos
        invariant View() == t.(patches := patches)
        invariant patches == t.patches + multiset(Insertable(t, done))
        decreases todo
      {
        var p :| p in todo;
        todo := todo - {p};
        InsertableSnoc(t, done, p);
        if !PairInUse(instances, p.serviceId, p.versionId) {
          patches := patches + multiset{p};
        }
        done := done + {p};
      }
      assert done == infos;
    }

    /** autopatch.go lines 88 to 155. */
    method ProcessAutopatchForSingleTag(tagRuns: seq<nat>) returns (patched: bool)
      requires |tagRuns| >= 2
      modifies this
      ensures View() == PatchTag(old(View()), GoneOfRuns(tracker, tagRuns))
      ensures patched <==> GoneOfRuns(tracker, tagRuns) != {}
    {
      var latest, secondLatest := Tracked(tracker, tagRuns[0]), Tracked(tracker, tagRuns[1]);
      var disappeared := GetDisappearedInstances(latest, secondLatest);
      ghost var gone := GoneOfRuns(tracker, tagRuns);
      assert Elems(disappeared) == gone;
      if |disappeared| == 0 {
        return false;
      }
      var infos := GetPatches(disappeared);
      DeleteIssueMatchesOfDisappearedInstances(disappeared);
      var versionIds := GetVersionIdsOfDisappearedInstances(disappeared);
      DeleteDisappearedInstances(disappeared);
      var componentIds := GetComponentIdsOfDisappearedInstances(versionIds);
      DeleteVersionsOfDisappearedInstances(versionIds);
      DeleteComponentsOfDisappearedInstances(componentIds);
      InsertPatchesIfNoInstanceExists(infos);
      assert disappeared[0] in gone;
      patched := true;
    }

    /** autopatch.go lines 66 to 86: the tags are visited in the order `visited`, any order of the map. */
    method ProcessAutopatchOnCompletedRuns(byTag: map<string, seq<nat>>)
      returns (autopatched: bool, ghost visited: seq<set<RowId>>)
      modifies this
      ensures View() == PatchTags(old(View()), visited)
      ensures forall tag :: tag in byTag && |byTag[tag]| >= 2 ==> GoneOfRuns(tracker, byTag[tag]) in visited
      ensures forall gone :: gone in visited ==> exists tag :: tag in byTag && gone == GoneOfRuns(tracker, byTag[tag])
      ensures autopatched <==> AllGone(visited) != {}
    {
      autopatched, visited := false, [];
      ghost var t := View();
      var todo := byTag.Keys;
      while todo != {}
        invariant todo <= byTag.Keys
        invariant View() == PatchTags(t, visited)
        invariant Visited(tracker, byTag, byTag.Keys - todo, visited)
        invariant autopatched <==> AllGone(visited) != {}
        decreases todo
      {
        var tag :| tag in todo;
        var tagRuns := byTag[tag];
        VisitTag(tracker, byTag, byTag.Keys - todo, visited, tag);
        assert byTag.Keys - (todo - {tag}) == byTag.Keys - todo + {tag};
        todo := todo - {tag};
        if |tagRuns| >= 2 {
          var patchedForTag := ProcessAutopatchForSingleTag(tagRuns);
          ghost var longer := visited + [GoneOfRuns(tracker, tagRuns)];
          assert longer[..|longer| - 1] == visited;
          visited := longer;
          if patchedForTag {
            autopatched := true;
          }
        }
      }
    }

    /** visited lists the sets of gone instances, tag by tag, of the tags with two completed runs. */
    ghost predicate VisitsTags(rows: seq<(string, nat)>, visited: seq<set<RowId>>) {
      && (forall tag :: |IdsOfTag(rows, tag)| >= 2 ==> GoneOfRuns(tracker, IdsOfTag(rows, tag)) in visited)
      && (forall gone :: gone in visited ==> exists tag :: gone == GoneOfRuns(tracker, IdsOfTag(rows, tag)))
    }

    /** No tag lost more live instances than fit on a page. */
    ghost predicate FewGonePerTag(t: Tables, rows: seq<(string, nat)>) {
      forall tag :: |LiveAmong(t, GoneOfRuns(tracker, IdsOfTag(rows, tag)))| <= 1000
    }

    /** autopatch.go lines 17 to 24, with the outcome in terms of the runs alone: which instances
        disappeared in some tag decides everything but which versions die, whatever order the tags were
        visited in; exactly the right versions die iff the pages covered them. Where everything gone is dead
        already, as the outcome of an earlier call leaves it, no live flag, link or patch changes. */
    method Autopatch(rows: seq<(string, nat)>)
      returns (autopatched: bool, ghost gone: set<RowId>, ghost visited: seq<set<RowId>>)
      requires AnswersRunQuery(rows, runs)
      modifies this
      ensures forall i :: i in gone <==> exists tag :: Disappeared(runs, tracker, tag, i)
      ensures VisitsTags(rows, visited)
      ensures RowsAsPromised(old(View()), View(), gone) && VersionsSound(old(View()), View())
      ensures ComponentsAsPromised(old(View()), View())
      ensures WellFormed(old(View())) ==>
                (VersionsAsPromised(old(View()), View(), gone) <==> PagesCover(old(View()), visited))
      ensures FewGonePerTag(old(View()), rows) ==> PagesCover(old(View()), visited)
      ensures Settled(old(View()), gone) ==> View() == old(View())
      ensures autopatched <==> gone != {}
    {
      var byTag := FetchCompletedRunsWithNewestFirst(rows);
      autopatched, visited := ProcessAutopatchOnCompletedRuns(byTag);
      gone := AllGone(visited);
      ghost var t := old(View());
      TagsMeaning(t, visited);
      forall i
        ensures i in gone <==> exists tag :: Disappeared(runs, tracker, tag, i)
      {
        GoneInSomeTag(rows, byTag, visited, i);
      }
      if FewGonePerTag(t, rows) {
        forall k | 0 <= k < |visited|
          ensures |LiveAmong(t, visited[k])| <= 1000
        {
          assert visited[k] in visited;
        }
        FewGoneArePaged(t, visited);
      }
      if Settled(t, gone) {
        QuietTags(t, visited);
      }
    }

    lemma GoneInSomeTag(rows: seq<(string, nat)>, byTag: map<string, seq<nat>>, visited: seq<set<RowId>>, i: RowId)
      requires AnswersRunQuery(rows, runs)
      requires forall tag :: tag in byTag <==> IdsOfTag(rows, tag) != []
      requires forall tag :: tag in byTag ==> byTag[tag] == IdsOfTag(rows, tag)
      requires forall tag :: tag in byTag && |byTag[tag]| >= 2 ==> GoneOfRuns(tracker, byTag[tag]) in visited
      requires forall gone :: gone in visited ==> exists tag :: tag in byTag && gone == GoneOfRuns(tracker, byTag[tag])
      ensures i in AllGone(visited) <==> exists tag :: Disappeared(runs, tracker, tag, i)
    {
      AllGoneMembers(visited, i);
      if i in AllGone(visited) {
        var k :| 0 <= k < |visited| && i in visited[k];
        assert visited[k] in visited;
        var tag :| tag in byTag && visited[k] == GoneOfRuns(tracker, byTag[tag]);
        GoneIsDisappeared(rows, runs, tracker, tag, i);
      }
      if exists tag :: Disappeared(runs, tracker, tag, i) {
        var tag :| Disappeared(runs, tracker, tag, i);
        GoneIsDisappeared(rows, runs, tracker, tag, i);
        assert tag in byTag && GoneOfRuns(tracker, byTag[tag]) in visited;
      }
    }
  }

  lemma {:induction false} AllGoneMembers(visited: seq<set<RowId>>, i: RowId)
    ensures i in AllGone(visited) <==> exists k :: 0 <= k < |visited| && i in visited[k]
  {
    if visited != [] {
      AllGoneMembers(visited[..|visited| - 1], i);
    }
  }
}
