/**
 The filter parts of issues and the joins they rely on: when every alias that the WHERE clause names is in scope.
 */
module IssueWhere {
  import opened Common
  import opened IssueJoins
  import opened Joins

  /** The filter properties, in order, those that name only the issue table taken together, and the order by rating. */
  datatype Part =
    | ServiceCcrn | ServiceId | OnIssue | IssueMatchStatus | IssueMatchSeverity | LiveIssueMatch | MvSeverity
    | IssueMatchId | ComponentVersionId | IssueVariantId | IssueRepositoryId | SupportGroupCcrn | ComponentId
    | MatchOfComponent | Search | RemediationStatus
    | RatingOrder

  /** The part adds a condition for this filter: issue.go lines 31 to 96. */
  predicate Present(p: Part, f: IssueFilter) {
    match p
    case ServiceCcrn => f.byServiceCcrn
    case ServiceId => f.byServiceId
    case OnIssue => true
    case IssueMatchStatus => f.byIssueMatchStatus
    case IssueMatchSeverity => f.byIssueMatchSeverity
    case LiveIssueMatch => f.hasIssueMatches || f.byIssueMatchStatus || f.byIssueMatchId || f.byIssueMatchSeverity
    case MvSeverity => f.byMvSeverity
    case IssueMatchId => f.byIssueMatchId
    case ComponentVersionId => f.byComponentVersionId
    case IssueVariantId => f.byIssueVariantId
    case IssueRepositoryId => f.byIssueRepositoryId
    case SupportGroupCcrn => f.bySupportGroupCcrn
    case ComponentId => f.byComponentId
    case MatchOfComponent => f.hasIssueMatches && f.byComponentId
    case Search => f.bySearch
    case RemediationStatus => f.WantsStatus()
    case RatingOrder => f.orderedByRating
  }

  /** The aliases its condition names. */
  function NamedBy(p: Part): set<Alias> {
    match p
    case ServiceCcrn => {S}
    case ServiceId => {CI}
    case OnIssue => {I}
    case IssueMatchStatus => {IM}
    case IssueMatchSeverity => {IM}
    case LiveIssueMatch => {IM}
    case MvSeverity => {MVL}
    case IssueMatchId => {IM}
    case ComponentVersionId => {CVI}
    case IssueVariantId => {IV}
    case IssueRepositoryId => {IV}
    case SupportGroupCcrn => {SG}
    case ComponentId => {CV}
    case MatchOfComponent => {IM}
    case Search => {IV, I}
    case RemediationStatus => {R}
    case RatingOrder => {IV}
  }

  // ---------- What a wanted join brings along ----------

  /** The name and everything it depends on. */
  function NamesBelow(n: Name): (names: set<Name>)
    ensures n in names
    decreases Rank(n)
  {
    var deps := DependsOnOf(n);
    {n} +
    (if |deps| > 0 then assert deps[0] in deps; DependenciesOfDef(n, deps[0]); NamesBelow(deps[0]) else {}) +
    (if |deps| > 1 then assert deps[1] in deps; DependenciesOfDef(n, deps[1]); NamesBelow(deps[1]) else {})
  }

  lemma BelowDependency(n: Name, dep: Name)
    requires dep in DependsOnOf(n)
    ensures Rank(dep) < Rank(n) && NamesBelow(dep) <= NamesBelow(n)
  {
    DependenciesOfDef(n, dep);
    assert |DependsOnOf(n)| <= 2;
  }

  /** What is below a name is the name itself or below one of its dependencies. */
  lemma {:induction false} BelowSplits(n: Name, m: Name)
    requires m in NamesBelow(n) && m != n
    ensures exists dep :: dep in DependsOnOf(n) && Rank(dep) < Rank(n) && m in NamesBelow(dep)
  {
    var deps := DependsOnOf(n);
    var k := if |deps| > 0 && m in NamesBelow(deps[0]) then 0 else 1;
    assert deps[k] in deps;
    DependenciesOfDef(n, deps[k]);
  }

  lemma {:induction false} BelowIsClosed(n: Name, m: Name, dep: Name)
    requires m in NamesBelow(n) && dep in DependsOnOf(m)
    ensures dep in NamesBelow(n)
    decreases Rank(n)
  {
    if m == n {
      BelowDependency(n, dep);
    } else {
      BelowSplits(n, m);
      var d :| d in DependsOnOf(n) && Rank(d) < Rank(n) && m in NamesBelow(d);
      BelowIsClosed(d, m, dep);
      BelowDependency(n, d);
    }
  }

  lemma {:induction false} ClosedHoldsBelow(names: set<Name>, n: Name)
    requires Closed(DefsOf(NAMES), names) && n in names
    ensures NamesBelow(n) <= names
    decreases Rank(n)
  {
    FindInTable(n);
    var deps := DependsOnOf(n);
    if |deps| > 0 {
      assert deps[0] in deps;
      DependenciesOfDef(n, deps[0]);
      ClosedHoldsBelow(names, deps[0]);
    }
    if |deps| > 1 {
      assert deps[1] in deps;
      DependenciesOfDef(n, deps[1]);
      ClosedHoldsBelow(names, deps[1]);
    }
  }

  /** The aliases a wanted join brings along. */
  function AliasesBelow(n: Name): set<Alias> {
    match n
    case ImRight => {IM}
    case ImLeft => {IM}
    case CiRight => {IM, CI}
    case CiLeft => {IM, CI}
    case CvRight => {IM, CI, CV}
    case CvLeft => {IM, CI, CV}
    case SRight => {IM, CI, S}
    case SLeft => {IM, CI, S}
    case Sgs => {IM, CI, SGS}
    case Sg => {IM, CI, SGS, SG}
    case Iv => {IV}
    case Cvi => {CVI}
    case CvUsingCvi => {CVI, CV}
    case RHasSAndC => {IM, CI, CVI, CV, R}
    case RHasS => {IM, CI, R}
    case RHasC => {CVI, CV, R}
    case ROnly => {R}
    case Mvl => {MVL}
    case Mvs => {MVL, MVS}
    case SWithMvs => {MVL, MVS, S}
    case SgsWithMvs => {MVL, MVS, SGS}
    case SgWithMvs => {MVL, MVS, SGS, SG}
  }

  lemma AliasesOfDependencies(n: Name)
    ensures var deps := DependsOnOf(n);
            AliasesBelow(n) == {AliasOf(n)} + (if |deps| > 0 then AliasesBelow(deps[0]) else {})
                               + (if |deps| > 1 then AliasesBelow(deps[1]) else {})
  {
  }

  lemma {:induction false} AliasBelow(n: Name, a: Alias)
    ensures a in AliasesBelow(n) <==> exists m :: m in NamesBelow(n) && AliasOf(m) == a
    decreases Rank(n)
  {
    var deps := DependsOnOf(n);
    AliasesOfDependencies(n);
    assert NamesBelow(n) == {n} + (if |deps| > 0 then NamesBelow(deps[0]) else {})
                            + (if |deps| > 1 then NamesBelow(deps[1]) else {});
    if |deps| > 0 {
      assert deps[0] in deps;
      DependenciesOfDef(n, deps[0]);
      AliasBelow(deps[0], a);
    }
    if |deps| > 1 {
      assert deps[1] in deps;
      DependenciesOfDef(n, deps[1]);
      AliasBelow(deps[1], a);
    }
  }

  // ---------- Which aliases are joined ----------

  /** Some join that the filter triggers or the caller forces brings the alias along. */
  ghost predicate Supplied(f: IssueFilter, forced: seq<Name>, a: Alias) {
    (exists n :: Condition(n, f) && a in AliasesBelow(n)) || Forced(forced, a)
  }

  ghost predicate Forced(forced: seq<Name>, a: Alias) {
    exists n :: n in forced && a in AliasesBelow(n)
  }

  ghost function AllBelow(f: IssueFilter, forced: seq<Name>): set<Name> {
    set n: Name, m: Name | n in Wanted(f, forced) && m in NamesBelow(n) :: m
  }

  lemma AllBelowIsClosed(f: IssueFilter, forced: seq<Name>)
    ensures Closed(DefsOf(NAMES), AllBelow(f, forced)) && Wanted(f, forced) <= AllBelow(f, forced)
  {
    var names := AllBelow(f, forced);
    forall n | n in Wanted(f, forced)
      ensures n in names
    {
      assert n in NamesBelow(n);
    }
    forall m, dep | m in names && Find(DefsOf(NAMES), m).Some? && dep in Find(DefsOf(NAMES), m).value.dependsOn
      ensures dep in names
    {
      FindInTable(m);
      var n :| n in Wanted(f, forced) && m in NamesBelow(n);
      BelowIsClosed(n, m, dep);
    }
  }

  /** The least closure of the wanted names is what they bring along. */
  lemma ClosureIsBelow(f: IssueFilter, forced: seq<Name>, order: seq<Name>)
    requires LeastClosure(DefsOf(NAMES), Wanted(f, forced), order)
    ensures Elems(order) == AllBelow(f, forced)
  {
    AllBelowIsClosed(f, forced);
    forall m | m in AllBelow(f, forced)
      ensures m in order
    {
      var n :| n in Wanted(f, forced) && m in NamesBelow(n);
      ClosedHoldsBelow(Elems(order), n);
    }
  }

  lemma WantedOrForced(f: IssueFilter, forced: seq<Name>, n: Name)
    ensures n in Wanted(f, forced) <==> Condition(n, f) || n in forced
  {
  }

  lemma SuppliedIsOrdered(f: IssueFilter, forced: seq<Name>, a: Alias)
    requires Supplied(f, forced, a)
    ensures exists m :: m in AllBelow(f, forced) && AliasOf(m) == a
  {
    var n :| (Condition(n, f) || n in forced) && a in AliasesBelow(n);
    WantedOrForced(f, forced, n);
    AliasBelow(n, a);
    var m :| m in NamesBelow(n) && AliasOf(m) == a;
    assert m in AllBelow(f, forced);
  }

  lemma OrderedIsSupplied(f: IssueFilter, forced: seq<Name>, m: Name)
    ensures m in AllBelow(f, forced) ==> Supplied(f, forced, AliasOf(m))
  {
    if m in AllBelow(f, forced) {
      var n :| n in Wanted(f, forced) && m in NamesBelow(n);
      WantedOrForced(f, forced, n);
      AliasBelow(n, AliasOf(m));
    }
  }

  lemma TableOfOrdered(order: seq<Name>, k: nat, a: Alias)
    requires k < |order|
    ensures Find(DefsOf(NAMES), order[k]).Some?
    ensures Find(DefsOf(NAMES), order[k]).value.table == TableOf(a) <==> AliasOf(order[k]) == a
  {
    FindInTable(order[k]);
    TableAlias(a);
    TableAlias(AliasOf(order[k]));
  }

  lemma ProvidedIsOrdered(order: seq<Name>, a: Alias)
    requires Known(DefsOf(NAMES), order) && Provides(EmittedOf(DefsOf(NAMES), order), a)
    ensures exists m :: m in order && AliasOf(m) == a
  {
    var joins := EmittedOf(DefsOf(NAMES), order);
    var i :| 0 <= i < |joins| && joins[i].table.alias == a;
    EmittedTables(DefsOf(NAMES), order, joins[i].table);
    var k :| 0 <= k < |order| && Find(DefsOf(NAMES), order[k]).value.table == joins[i].table;
    FindInTable(order[k]);
    TableAlias(AliasOf(order[k]));
    assert order[k] in order;
  }

  lemma OrderedIsProvided(order: seq<Name>, m: Name)
    requires Known(DefsOf(NAMES), order) && m in order
    ensures Provides(EmittedOf(DefsOf(NAMES), order), AliasOf(m))
  {
    var k :| 0 <= k < |order| && order[k] == m;
    TableOfOrdered(order, k, AliasOf(m));
    TableAlias(AliasOf(m));
    EmittedTables(DefsOf(NAMES), order, TableOf(AliasOf(m)));
    ProvidedByTable(EmittedOf(DefsOf(NAMES), order), TableOf(AliasOf(m)));
  }

  lemma {:induction false} ProvidesBelow(f: IssueFilter, forced: seq<Name>, order: seq<Name>, a: Alias)
    requires Elems(order) == AllBelow(f, forced) && Known(DefsOf(NAMES), order)
    ensures Provides(EmittedOf(DefsOf(NAMES), order), a) <==> Supplied(f, forced, a)
  {
    if Provides(EmittedOf(DefsOf(NAMES), order), a) {
      ProvidedIsOrdered(order, a);
      var m :| m in order && AliasOf(m) == a;
      assert m in Elems(order);
      OrderedIsSupplied(f, forced, m);
    }
    if Supplied(f, forced, a) {
      SuppliedIsOrdered(f, forced, a);
      var m :| m in Elems(order) && AliasOf(m) == a;
      OrderedIsProvided(order, m);
    }
  }

  /** The joins the resolver emits provide exactly the aliases that are supplied. */
  lemma {:induction false} JoinsProvide(f: IssueFilter, forced: seq<Name>, order: seq<Name>, a: Alias)
    requires LeastClosure(DefsOf(NAMES), Wanted(f, forced), order) && Known(DefsOf(NAMES), order)
    ensures Provides(EmittedOf(DefsOf(NAMES), order), a) <==> Supplied(f, forced, a)
  {
    ClosureIsBelow(f, forced, order);
    ProvidesBelow(f, forced, order, a);
  }

  // ---------- When the filter parts can be read ----------

  ghost predicate InScope(p: Part, f: IssueFilter, forced: seq<Name>) {
    Present(p, f) ==> forall a :: a in NamedBy(p) ==> a == I || Supplied(f, forced, a)
  }

  ghost predicate WhereInScope(f: IssueFilter, forced: seq<Name>) {
    forall p :: InScope(p, f, forced)
  }

  lemma SuppliedBy(f: IssueFilter, forced: seq<Name>, n: Name, a: Alias)
    requires Condition(n, f) && a in AliasesBelow(n)
    ensures Supplied(f, forced, a)
  {
  }

  /** Filtering by service id while the materialised list is used needs another reason to join the instances. */
  predicate InstancesJoined(f: IssueFilter) {
    !f.useMvVulnerabilityList || f.allServices || (f.hasIssueMatches && f.byServiceCcrn) || f.WantsStatus()
  }

  /** Filtering by component needs the versions, through the instances or through the issues. */
  predicate VersionsJoined(f: IssueFilter) {
    || f.allServices
    || f.WantsStatus()
    || (f.byServiceCcrn && !f.useMvVulnerabilityList && !f.hasIssueMatches)
    || ((!f.byServiceCcrn || f.hasIssueMatches) && !f.bySupportGroupCcrn)
  }

  lemma ServiceIdInScope(f: IssueFilter, forced: seq<Name>)
    ensures InScope(ServiceId, f, forced) <==> (f.byServiceId ==> InstancesJoined(f) || Forced(forced, CI))
  {
    if f.byServiceId {
      if InstancesJoined(f) {
        var n := if !f.useMvVulnerabilityList then CiLeft
                 else if f.WantsStatus() then (if f.byComponentId then RHasSAndC else RHasS)
                 else SRight;
        SuppliedBy(f, forced, n, CI);
      } else {
        assert forall n :: CI in AliasesBelow(n) ==> !Condition(n, f);
      }
      assert InScope(ServiceId, f, forced) <==> Supplied(f, forced, CI) by {
        assert CI in NamedBy(ServiceId);
      }
    }
  }

  lemma ComponentIdInScope(f: IssueFilter, forced: seq<Name>)
    ensures InScope(ComponentId, f, forced) <==> (f.byComponentId ==> VersionsJoined(f) || Forced(forced, CV))
  {
    if f.byComponentId {
      if VersionsJoined(f) {
        var n := if f.allServices then CvRight
                 else if f.WantsStatus() then (if f.HasService() then RHasSAndC else RHasC)
                 else if f.byServiceCcrn && !f.useMvVulnerabilityList && !f.hasIssueMatches then CvLeft
                 else CvUsingCvi;
        SuppliedBy(f, forced, n, CV);
      } else {
        assert forall n :: CV in AliasesBelow(n) ==> !Condition(n, f);
      }
      assert InScope(ComponentId, f, forced) <==> Supplied(f, forced, CV) by {
        assert CV in NamedBy(ComponentId);
      }
    }
  }

  lemma MvSeverityInScope(f: IssueFilter, forced: seq<Name>)
    ensures InScope(MvSeverity, f, forced) <==>
              (f.byMvSeverity ==> f.useMvVulnerabilityList || Forced(forced, MVL))
  {
    if f.byMvSeverity {
      if f.useMvVulnerabilityList {
        SuppliedBy(f, forced, Mvl, MVL);
      } else {
        assert forall n :: MVL in AliasesBelow(n) ==> !Condition(n, f);
      }
      assert InScope(MvSeverity, f, forced) <==> Supplied(f, forced, MVL) by {
        assert MVL in NamedBy(MvSeverity);
      }
    }
  }

  /** All other parts trigger what they need themselves. */
  lemma OthersInScope(p: Part, f: IssueFilter, forced: seq<Name>)
    requires p != ServiceId && p != ComponentId && p != MvSeverity
    ensures InScope(p, f, forced)
  {
    if Present(p, f) && p != OnIssue {
      var n := match p
        case ServiceCcrn => if f.hasIssueMatches then SRight else if f.useMvVulnerabilityList then SWithMvs else SLeft
        case ComponentVersionId => Cvi
        case IssueVariantId => Iv
        case IssueRepositoryId => Iv
        case Search => Iv
        case RatingOrder => Iv
        case SupportGroupCcrn => if f.useMvVulnerabilityList then SgWithMvs else Sg
        case RemediationStatus =>
          if f.HasService() then (if f.byComponentId then RHasSAndC else RHasS)
          else if f.byComponentId then RHasC else ROnly
        case _ => if f.hasIssueMatches then ImRight else ImLeft;
      forall a | a in NamedBy(p) && a != I
        ensures Supplied(f, forced, a)
      {
        SuppliedBy(f, forced, n, a);
      }
    }
  }

  /** Exactly when every alias that the filter parts of an issue query name is joined. */
  lemma WhereInScopeExactly(f: IssueFilter, forced: seq<Name>)
    ensures WhereInScope(f, forced) <==>
              && (f.byServiceId ==> InstancesJoined(f) || Forced(forced, CI))
              && (f.byComponentId ==> VersionsJoined(f) || Forced(forced, CV))
              && (f.byMvSeverity ==> f.useMvVulnerabilityList || Forced(forced, MVL))
  {
    ServiceIdInScope(f, forced);
    ComponentIdInScope(f, forced);
    MvSeverityInScope(f, forced);
    forall p | p != ServiceId && p != ComponentId && p != MvSeverity
      ensures InScope(p, f, forced)
    {
      OthersInScope(p, f, forced);
    }
  }

  /** The joins that can drop issues: the right join of issue matches and the inner joins, which are those that need
      the materialised lists. */
  lemma JoinKinds(n: Name)
    ensures KindOf(n) == RightJoin <==> n == ImRight
    ensures KindOf(n) == InnerJoin <==> MVL in AliasesBelow(n)
  {
  }

  /** A status filter triggers exactly one way to join the remediations, by the columns the other filters bring. */
  lemma OneRemediationJoin(f: IssueFilter)
    ensures (exists n :: AliasOf(n) == R && Condition(n, f)) <==> f.status.Open? || f.status.Remediated?
    ensures forall n :: AliasOf(n) == R && Condition(n, f) ==>
              && (CI in UsesOf(n) <==> f.byServiceCcrn || f.byServiceId)
              && (CV in UsesOf(n) <==> f.byComponentId)
    ensures forall n, m :: AliasOf(n) == R && Condition(n, f) && AliasOf(m) == R && Condition(m, f) ==> n == m
  {
    var n := if f.HasService() then (if f.byComponentId then RHasSAndC else RHasS)
             else if f.byComponentId then RHasC else ROnly;
    assert AliasOf(n) == R;
  }

  /** Without a filter nothing is joined. */
  lemma NoFilterNoJoin(order: seq<Name>)
    requires LeastClosure(DefsOf(NAMES), Wanted(NO_FILTER, []), order)
    ensures forall n :: n !in order
  {
    assert Wanted(NO_FILTER, []) == {};
    assert Closed(DefsOf(NAMES), {});
    assert Elems(order) <= {};
    assert forall n :: n in order ==> n in Elems(order);
  }

  const NO_FILTER: IssueFilter := IssueFilter(false, false, false, All, false, false, false, false, false, false,
                                              false, false, false, false, false, false, false)

  /** Issues of a component and a support group: the component is looked up in a table that is not joined. */
  lemma ComponentOfGroupOutOfScope()
    ensures !WhereInScope(NO_FILTER.(byComponentId := true, bySupportGroupCcrn := true), [])
  {
    WhereInScopeExactly(NO_FILTER.(byComponentId := true, bySupportGroupCcrn := true), []);
  }
}
