/**
 The rule for creating remediations: check the active rows of the same service and issue, then insert. What it
 keeps over any run of creates and deletes, handled one at a time.
 */
module Remediation {
  import opened Common

  datatype Type = FalsePositive | RiskAccepted | Mitigation | Rescore | UnknownType

  /** No expiration date means permanent. */
  datatype Remediation = Remediation(service: nat, serviceName: string, issue: nat, component: int, kind: Type,
                                     url: string, expiration: Option<nat>)

  /** A table row; rows are kept in creation order, so row k has id k + 1. */
  datatype Row = Row(data: Remediation, active: bool)

  const PAGE_LIMIT: nat := 1000

  /** Checked before the database is asked: a service name, and a URL for accepted risks. */
  predicate Valid(r: Remediation) {
    r.serviceName != "" && (r.kind.RiskAccepted? ==> r.url != "")
  }

  predicate SameComponent(a: int, b: int) {
    (a <= 0 && b <= 0) || a == b
  }

  predicate Expired(r: Remediation, now: nat) {
    r.expiration.Some? && r.expiration.value < now
  }

  /** b expires strictly later than a; nothing is later than a permanent one, and a permanent one is not later. */
  predicate Later(a: Remediation, b: Remediation) {
    a.expiration.Some? && b.expiration.Some? && a.expiration.value < b.expiration.value
  }

  /** Why an existing row speaks against a new remediation. */
  predicate Blocks(existing: Remediation, new_: Remediation, now: nat) {
    && SameComponent(new_.component, existing.component)
    && !Expired(existing, now)
    && existing.kind == new_.kind
    && !Later(existing, new_)
  }

  /** The active rows of a service and issue, in id order, as far as the first page goes. */
  function Candidates(rows: seq<Row>, service: nat, issue: nat): seq<Remediation> {
    if rows == [] then []
    else
      var n := |rows| - 1;
      var earlier, r := Candidates(rows[..n], service, issue), rows[n];
      if r.active && r.data.service == service && r.data.issue == issue then earlier + [r.data] else earlier
  }

  function FirstPage(rs: seq<Remediation>): seq<Remediation> {
    if |rs| > PAGE_LIMIT then rs[..PAGE_LIMIT] else rs
  }

  class Remediations {
    var rows: seq<Row>

    constructor ()
      ensures rows == []
    {
      rows := [];
    }

    /** remediation_handler.go lines 141 to 306: validation, the loop over existing rows, then the insert. */
    method CreateRemediation(remediation: Remediation, now: nat) returns (created: bool)
      modifies this
      ensures created <==> Accepts(old(rows), remediation, now)
      ensures rows == Step(old(rows), Create(remediation, now))
    {
      if remediation.serviceName == "" {
        return false;
      }
      if remediation.kind == RiskAccepted && remediation.url == "" {
        return false;
      }
      var existing := FirstPage(Candidates(rows, remediation.service, remediation.issue));
      for i := 0 to |existing|
        invariant forall k :: 0 <= k < i ==> !Blocks(existing[k], remediation, now)
      {
        var er := existing[i];
        var sameComponent := (remediation.component <= 0 && er.component <= 0) || remediation.component == er.component;
        if !sameComponent {
          continue;
        }
        var isExpired := er.expiration.Some? && er.expiration.value < now;
        if isExpired {
          continue;
        }
        if er.kind != remediation.kind {
          continue;
        }
        var existingIsOpen := er.expiration.None?;
        var newIsLater := remediation.expiration.Some? &&
          (er.expiration.None? || remediation.expiration.value > er.expiration.value);
        if existingIsOpen || !newIsLater {
          assert existing[i] == er && Blocks(er, remediation, now);
          return false;
        }
      }
      rows := rows + [Row(remediation, true)];
      created := true;
    }

    /** remediation_handler.go lines 497 to 550; an id that names no row updates none. */
    method DeleteRemediation(id: int) returns (ok: bool)
      modifies this
      ensures ok <==> id > 0
      ensures rows == Deleted(old(rows), id)
      ensures |rows| == |old(rows)| && forall k :: 0 <= k < |rows| ==>
                rows[k].data == old(rows)[k].data && (rows[k].active <==> old(rows)[k].active && k + 1 != id)
    {
      if id <= 0 {
        return false;
      }
      if id <= |rows| {
        rows := rows[id - 1 := rows[id - 1].(active := false)];
      }
      ok := true;
    }
  }

  function Deleted(rows: seq<Row>, id: int): (after: seq<Row>)
    ensures |after| == |rows|
  {
    if 0 < id <= |rows| then rows[id - 1 := rows[id - 1].(active := false)] else rows
  }

  // ---------- Runs ----------

  datatype Event = Create(remediation: Remediation, now: nat) | Delete(id: int, now: nat)

  predicate Accepts(rows: seq<Row>, remediation: Remediation, now: nat) {
    Valid(remediation) &&
    forall k :: 0 <= k < |FirstPage(Candidates(rows, remediation.service, remediation.issue))| ==>
      !Blocks(FirstPage(Candidates(rows, remediation.service, remediation.issue))[k], remediation, now)
  }

  function Step(rows: seq<Row>, ev: Event): seq<Row> {
    match ev
    case Create(r, now) => if Accepts(rows, r, now) then rows + [Row(r, true)] else rows
    case Delete(id, _) => Deleted(rows, id)
  }

  function Run(rows: seq<Row>, events: seq<Event>): seq<Row> {
    if events == [] then rows else Step(Run(rows, events[..|events| - 1]), events[|events| - 1])
  }

  predicate Monotone(events: seq<Event>) {
    forall i, j :: 0 <= i < j < |events| ==> events[i].now <= events[j].now
  }

  /** The active rows of the service and issue that do not fit on the page have all expired. */
  predicate RestExpired(rows: seq<Row>, service: nat, issue: nat, now: nat) {
    forall k :: 1000 <= k < |Candidates(rows, service, issue)| ==>
      Expired(Candidates(rows, service, issue)[k], now)
  }

  /** Whenever something is created, the page is enough; it always is for up to 1000 active rows. */
  predicate PagesSuffice(rows: seq<Row>, events: seq<Event>) {
    forall k :: 0 <= k < |events| && events[k].Create? ==>
      RestExpired(Run(rows, events[..k]), events[k].remediation.service, events[k].remediation.issue, events[k].now)
  }

  /** Not deleted, and permanent or not expired. */
  predicate InForce(row: Row, now: nat) {
    row.active && (row.data.expiration.None? || now <= row.data.expiration.value)
  }

  /** The same type for the same service and issue, and either for the same component or for none in both. */
  predicate SameSubject(a: Remediation, b: Remediation) {
    && a.service == b.service && a.issue == b.issue && a.kind == b.kind
    && (a.component == b.component || (a.component <= 0 && b.component <= 0))
  }

  /** Both expire, and b strictly later. */
  predicate ExpiresBefore(a: Remediation, b: Remediation) {
    a.expiration.Some? && b.expiration.Some? && a.expiration.value < b.expiration.value
  }

  predicate Rivals(a: Row, b: Row, now: nat) {
    InForce(a, now) && InForce(b, now) && SameSubject(a.data, b.data)
  }

  /** Among the rows in force with the same subject, later created ones expire strictly later; in particular a
      permanent one has none beside it. */
  ghost predicate Ordered(rows: seq<Row>, now: nat) {
    forall i, j :: 0 <= i < j < |rows| && Rivals(rows[i], rows[j], now) ==>
      ExpiresBefore(rows[i].data, rows[j].data)
  }

  lemma {:induction false} CandidatesMember(rows: seq<Row>, service: nat, issue: nat, i: nat)
    requires i < |rows| && rows[i].active && rows[i].data.service == service && rows[i].data.issue == issue
    ensures rows[i].data in Candidates(rows, service, issue)
  {
    var n := |rows| - 1;
    if i < n {
      CandidatesMember(rows[..n], service, issue, i);
    }
  }

  lemma {:induction false} CandidatesAreRows(rows: seq<Row>, service: nat, issue: nat, r: Remediation)
    requires r in Candidates(rows, service, issue)
    ensures exists i :: 0 <= i < |rows| && rows[i] == Row(r, true) && r.service == service && r.issue == issue
  {
    var n := |rows| - 1;
    if r in Candidates(rows[..n], service, issue) {
      CandidatesAreRows(rows[..n], service, issue, r);
      var i :| 0 <= i < n && rows[..n][i] == Row(r, true);
      assert rows[i] == Row(r, true);
    } else {
      assert rows[n] == Row(r, true);
    }
  }

  /** No row in force with the same subject speaks against the remediation. */
  ghost predicate LaterThanAll(rows: seq<Row>, r: Remediation, now: nat) {
    forall i :: 0 <= i < |rows| && InForce(rows[i], now) && SameSubject(rows[i].data, r) ==>
      ExpiresBefore(rows[i].data, r)
  }

  lemma LaterThanAllExactly(rows: seq<Row>, r: Remediation, now: nat)
    ensures LaterThanAll(rows, r, now) <==>
              forall c :: c in Candidates(rows, r.service, r.issue) ==> !Blocks(c, r, now)
  {
    var candidates := Candidates(rows, r.service, r.issue);
    if forall c :: c in candidates ==> !Blocks(c, r, now) {
      forall i | 0 <= i < |rows| && InForce(rows[i], now) && SameSubject(rows[i].data, r)
        ensures ExpiresBefore(rows[i].data, r)
      {
        CandidatesMember(rows, r.service, r.issue, i);
      }
    }
    if LaterThanAll(rows, r, now) {
      forall c | c in candidates
        ensures !Blocks(c, r, now)
      {
        CandidatesAreRows(rows, r.service, r.issue, c);
      }
    }
  }

  lemma PageElement(rs: seq<Remediation>, k: nat)
    requires k < |FirstPage(rs)|
    ensures k < |rs| && k < PAGE_LIMIT && FirstPage(rs)[k] == rs[k] && rs[k] in rs
  {
  }

  lemma RestExpiredSuffices(rows: seq<Row>, r: Remediation, now: nat)
    requires RestExpired(rows, r.service, r.issue, now) && Accepts(rows, r, now)
    ensures LaterThanAll(rows, r, now)
  {
    var candidates := Candidates(rows, r.service, r.issue);
    forall c | c in candidates
      ensures !Blocks(c, r, now)
    {
      var k :| 0 <= k < |candidates| && candidates[k] == c;
      if k < PAGE_LIMIT {
        assert !Blocks(FirstPage(candidates)[k], r, now);
      }
    }
    LaterThanAllExactly(rows, r, now);
  }

  /** When the page is enough, a valid remediation is accepted exactly if it is later than every row in force with
      the same subject. */
  lemma AcceptsExactly(rows: seq<Row>, r: Remediation, now: nat)
    requires RestExpired(rows, r.service, r.issue, now)
    ensures Accepts(rows, r, now) <==>
              r.serviceName != "" && (r.kind == RiskAccepted ==> r.url != "") && LaterThanAll(rows, r, now)
  {
    var candidates := Candidates(rows, r.service, r.issue);
    if Accepts(rows, r, now) {
      RestExpiredSuffices(rows, r, now);
    }
    if Valid(r) && LaterThanAll(rows, r, now) {
      LaterThanAllExactly(rows, r, now);
      forall k | 0 <= k < |FirstPage(candidates)|
        ensures !Blocks(FirstPage(candidates)[k], r, now)
      {
        PageElement(candidates, k);
      }
    }
  }

  /** One accepted remediation keeps the order iff no row in force, seen or not, speaks against it. */
  lemma OneCreateKeepsOrder(rows: seq<Row>, r: Remediation, now: nat)
    requires Ordered(rows, now) && !Expired(r, now)
    ensures Ordered(Step(rows, Create(r, now)), now) <==> !Accepts(rows, r, now) || LaterThanAll(rows, r, now)
  {
    if Accepts(rows, r, now) {
      var after := rows + [Row(r, true)];
      if Ordered(after, now) {
        forall i | 0 <= i < |rows| && InForce(rows[i], now) && SameSubject(rows[i].data, r)
          ensures ExpiresBefore(rows[i].data, r)
        {
          assert after[i] == rows[i] && after[|rows|] == Row(r, true);
          assert Rivals(after[i], after[|rows|], now);
        }
      }
    }
  }

  /** All rows were checked when they were created. */
  predicate AllValid(rows: seq<Row>) {
    forall i :: 0 <= i < |rows| ==> Valid(rows[i].data)
  }

  lemma {:induction false} RunsAreValid(events: seq<Event>)
    ensures AllValid(Run([], events))
  {
    if events != [] {
      RunsAreValid(events[..|events| - 1]);
    }
  }

  /** Two candidates are two rows in the same order. */
  lemma {:induction false} CandidatesInOrder(rows: seq<Row>, service: nat, issue: nat, i: nat, j: nat)
    requires i < j < |Candidates(rows, service, issue)|
    ensures exists p, q :: 0 <= p < q < |rows| && rows[p] == Row(Candidates(rows, service, issue)[i], true) &&
                           rows[q] == Row(Candidates(rows, service, issue)[j], true)
  {
    var n := |rows| - 1;
    var earlier := Candidates(rows[..n], service, issue);
    if j < |earlier| {
      CandidatesInOrder(rows[..n], service, issue, i, j);
      var p, q :| 0 <= p < q < n && rows[..n][p] == Row(earlier[i], true) && rows[..n][q] == Row(earlier[j], true);
      assert rows[p] == Row(earlier[i], true) && rows[q] == Row(earlier[j], true);
    } else {
      assert earlier[i] in earlier;
      CandidatesAreRows(rows[..n], service, issue, earlier[i]);
      var p :| 0 <= p < n && rows[..n][p] == Row(earlier[i], true);
      assert rows[p] == Row(earlier[i], true) && rows[n] == Row(Candidates(rows, service, issue)[j], true);
    }
  }

  /** Whatever unexpired remediation of the service and issue is created, the order is kept. */
  ghost predicate CreatesKeepOrder(rows: seq<Row>, service: nat, issue: nat, now: nat) {
    forall r: Remediation :: r.service == service && r.issue == issue && !Expired(r, now) ==>
      Ordered(Step(rows, Create(r, now)), now)
  }

  /** An earlier candidate does not speak against creating a later one again. */
  lemma EarlierDoesNotBlock(rows: seq<Row>, service: nat, issue: nat, now: nat, i: nat, k: nat)
    requires Ordered(rows, now) && i < k < |Candidates(rows, service, issue)|
    requires !Expired(Candidates(rows, service, issue)[k], now)
    ensures !Blocks(Candidates(rows, service, issue)[i], Candidates(rows, service, issue)[k], now)
  {
    var earlier, later := Candidates(rows, service, issue)[i], Candidates(rows, service, issue)[k];
    CandidatesAreRows(rows, service, issue, earlier);
    CandidatesAreRows(rows, service, issue, later);
    CandidatesInOrder(rows, service, issue, i, k);
    var p, q :| 0 <= p < q < |rows| && rows[p] == Row(earlier, true) && rows[q] == Row(later, true);
    assert Rivals(rows[p], rows[q], now) ==> ExpiresBefore(rows[p].data, rows[q].data);
  }

  /** A row in force that does not fit on the page can be created a second time. */
  lemma HiddenRowRepeats(rows: seq<Row>, service: nat, issue: nat, now: nat, k: nat)
    requires Ordered(rows, now) && AllValid(rows) && PAGE_LIMIT <= k < |Candidates(rows, service, issue)|
    requires !Expired(Candidates(rows, service, issue)[k], now)
    ensures !CreatesKeepOrder(rows, service, issue, now)
  {
    var candidates := Candidates(rows, service, issue);
    var r := candidates[k];
    CandidatesAreRows(rows, service, issue, r);
    assert Accepts(rows, r, now) by {
      forall i | 0 <= i < |FirstPage(candidates)|
        ensures !Blocks(FirstPage(candidates)[i], r, now)
      {
        PageElement(candidates, i);
        EarlierDoesNotBlock(rows, service, issue, now, i, k);
      }
    }
    OneCreateKeepsOrder(rows, r, now);
    assert !LaterThanAll(rows, r, now);
  }

  /** Exactly when the rule keeps the order whatever is created: when the active rows of the service and issue
      behind the first page have expired. */
  lemma CreateKeepsOrderExactly(rows: seq<Row>, service: nat, issue: nat, now: nat)
    requires Ordered(rows, now) && AllValid(rows)
    ensures CreatesKeepOrder(rows, service, issue, now) <==> RestExpired(rows, service, issue, now)
  {
    if RestExpired(rows, service, issue, now) {
      forall r: Remediation | r.service == service && r.issue == issue && !Expired(r, now)
        ensures Ordered(Step(rows, Create(r, now)), now)
      {
        if Accepts(rows, r, now) {
          RestExpiredSuffices(rows, r, now);
        }
        OneCreateKeepsOrder(rows, r, now);
      }
    } else {
      var k :| PAGE_LIMIT <= k < |Candidates(rows, service, issue)| &&
               !Expired(Candidates(rows, service, issue)[k], now);
      HiddenRowRepeats(rows, service, issue, now, k);
    }
  }

  // ---------- A run that breaks the order ----------

  /** n rows with the same data. */
  function Crowd(n: nat, r: Remediation): (rows: seq<Row>)
    ensures |rows| == n
  {
    if n == 0 then [] else Crowd(n - 1, r) + [Row(r, true)]
  }

  lemma {:induction false} CrowdCandidates(n: nat, r: Remediation)
    ensures |Candidates(Crowd(n, r), r.service, r.issue)| == n
    ensures forall c :: c in Candidates(Crowd(n, r), r.service, r.issue) ==> c == r
  {
    if n > 0 {
      CrowdCandidates(n - 1, r);
      assert Crowd(n, r)[..|Crowd(n, r)| - 1] == Crowd(n - 1, r);
    }
  }

  function Creates(n: nat, r: Remediation, now: nat): (events: seq<Event>)
    ensures |events| == n && forall ev :: ev in events ==> ev == Create(r, now)
  {
    if n == 0 then [] else Creates(n - 1, r, now) + [Create(r, now)]
  }

  /** An expired remediation can be created over and over. */
  lemma {:induction false} ExpiredCrowd(n: nat, r: Remediation, now: nat)
    requires Valid(r) && Expired(r, now)
    ensures Run([], Creates(n, r, now)) == Crowd(n, r)
  {
    if n > 0 {
      ExpiredCrowd(n - 1, r, now);
      var rows := Crowd(n - 1, r);
      CrowdCandidates(n - 1, r);
      var candidates := Candidates(rows, r.service, r.issue);
      forall k | 0 <= k < |FirstPage(candidates)|
        ensures !Blocks(FirstPage(candidates)[k], r, now)
      {
        PageElement(candidates, k);
      }
      assert Accepts(rows, r, now);
      assert Creates(n, r, now)[..n - 1] == Creates(n - 1, r, now);
    }
  }

  /** Behind a full page of expired rows a permanent remediation is accepted, whatever else there is. */
  lemma AcceptedBehindCrowd(n: nat, filler: Remediation, more: seq<Row>, r: Remediation, now: nat)
    requires n == 1000 && Valid(r) && Expired(filler, now)
    requires filler.service == r.service && filler.issue == r.issue
    ensures Accepts(Crowd(n, filler) + more, r, now)
  {
    CrowdCandidates(n, filler);
    var rows := Crowd(n, filler) + more;
    var candidates := Candidates(rows, r.service, r.issue);
    CandidatesOfPrefix(Crowd(n, filler), more, r.service, r.issue);
    forall k | 0 <= k < |FirstPage(candidates)|
      ensures !Blocks(FirstPage(candidates)[k], r, now)
    {
      PageElement(candidates, k);
      assert candidates[k] == Candidates(Crowd(n, filler), r.service, r.issue)[k];
      assert candidates[k] in Candidates(Crowd(n, filler), r.service, r.issue);
    }
  }

  lemma {:induction false} CandidatesOfPrefix(rows: seq<Row>, more: seq<Row>, service: nat, issue: nat)
    ensures Candidates(rows, service, issue) <= Candidates(rows + more, service, issue)
  {
    if more == [] {
      assert rows + more == rows;
    } else {
      var m := |more| - 1;
      CandidatesOfPrefix(rows, more[..m], service, issue);
      assert (rows + more)[..|rows + more| - 1] == rows + more[..m];
    }
  }

  /** Once a full page of expired rows has been created, the same permanent remediation can be created twice: the
      page limit breaks the order in a run from the empty table. */
  lemma CrowdHidesPermanent(n: nat, filler: Remediation, permanent: Remediation, now: nat)
    requires n == 1000 && Valid(filler) && Expired(filler, now) && Valid(permanent) && permanent.expiration.None?
    requires filler.service == permanent.service && filler.issue == permanent.issue
    ensures var events := Creates(n, filler, now) + [Create(permanent, now), Create(permanent, now)];
            Monotone(events) && !Ordered(Run([], events), now)
  {
    var fill, create := Creates(n, filler, now), Create(permanent, now);
    var events := fill + [create, create];
    var row := Row(permanent, true);
    ExpiredCrowd(n, filler, now);
    assert events[..n + 1] == fill + [create] && events[..n + 1][..n] == fill;
    AcceptedBehindCrowd(n, filler, [], permanent, now);
    assert Crowd(n, filler) + [] == Crowd(n, filler);
    assert Run([], events[..n + 1]) == Crowd(n, filler) + [row];
    AcceptedBehindCrowd(n, filler, [row], permanent, now);
    var rows := Run([], events);
    assert rows == Crowd(n, filler) + [row] + [row];
    assert rows[n] == row && rows[n + 1] == row && Rivals(rows[n], rows[n + 1], now);
    forall i, j | 0 <= i < j < |events|
      ensures events[i].now <= events[j].now
    {
      assert i < n ==> events[i] in fill;
      assert j < n ==> events[j] in fill;
    }
  }

  lemma OrderedLater(rows: seq<Row>, now: nat, later: nat)
    requires Ordered(rows, now) && now <= later
    ensures Ordered(rows, later)
  {
    assert forall row: Row :: InForce(row, later) ==> InForce(row, now);
  }

  lemma StepOrdered(rows: seq<Row>, ev: Event)
    requires Ordered(rows, ev.now)
    requires ev.Create? ==> RestExpired(rows, ev.remediation.service, ev.remediation.issue, ev.now)
    ensures Ordered(Step(rows, ev), ev.now)
  {
    match ev
    case Create(r, now) => AcceptsExactly(rows, r, now);
    case Delete(id, now) =>
      var after := Deleted(rows, id);
      assert forall i :: 0 <= i < |rows| ==>
        after[i].data == rows[i].data && (InForce(after[i], now) ==> InForce(rows[i], now));
  }

  /** Over any run with a monotone clock the rule keeps the order, at the time of the last event and for ever
      after. */
  lemma {:induction false} RunsStayOrdered(events: seq<Event>, now: nat)
    requires Monotone(events) && PagesSuffice([], events)
    requires forall k :: 0 <= k < |events| ==> events[k].now <= now
    ensures Ordered(Run([], events), now)
  {
    if events != [] {
      var n := |events| - 1;
      var ev := events[n];
      assert PagesSuffice([], events[..n]) by {
        forall k | 0 <= k < n && events[..n][k].Create?
          ensures var r := events[k].remediation;
                  RestExpired(Run([], events[..n][..k]), r.service, r.issue, events[k].now)
        {
          assert events[..n][..k] == events[..k];
        }
      }
      RunsStayOrdered(events[..n], ev.now);
      StepOrdered(Run([], events[..n]), ev);
      OrderedLater(Run([], events), ev.now, now);
    }
  }

  /** A permanent remediation in force is the only one in force for its subject. */
  lemma {:induction false} PermanentIsAlone(events: seq<Event>, now: nat, i: nat, j: nat)
    requires Monotone(events) && PagesSuffice([], events)
    requires forall k :: 0 <= k < |events| ==> events[k].now <= now
    requires i < |Run([], events)| && j < |Run([], events)| && i != j
    requires InForce(Run([], events)[i], now) && Run([], events)[i].data.expiration.None?
    requires SameSubject(Run([], events)[i].data, Run([], events)[j].data)
    ensures !InForce(Run([], events)[j], now)
  {
    RunsStayOrdered(events, now);
  }
}
