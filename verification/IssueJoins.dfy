/** The join table of issues, the largest one in the program, and what the resolver does with it. */
module IssueJoins {
  import opened Common
  import opened Joins

  datatype Alias = I | IM | CI | CV | S | SGS | SG | IV | CVI | R | MVL | MVS

  datatype Name =
    | ImRight | ImLeft | CiRight | CiLeft | CvRight | CvLeft | SRight | SLeft | Sgs | Sg | Iv | Cvi | CvUsingCvi
    | RHasSAndC | RHasS | RHasC | ROnly | Mvl | Mvs | SWithMvs | SgsWithMvs | SgWithMvs

  datatype Status = All | Open | Remediated

  /** What the conditions look at: which lists of the filter are not empty, its flags, and the order. */
  datatype IssueFilter = IssueFilter(
    hasIssueMatches: bool, allServices: bool, useMvVulnerabilityList: bool, status: Status,
    byIssueMatchStatus: bool, byIssueMatchId: bool, byIssueMatchSeverity: bool,
    byServiceId: bool, byServiceCcrn: bool, bySupportGroupCcrn: bool,
    byIssueVariantId: bool, byIssueRepositoryId: bool, bySearch: bool,
    byComponentVersionId: bool, byComponentId: bool, byMvSeverity: bool,
    orderedByRating: bool)
  {
    predicate HasService() { byServiceCcrn || byServiceId }
    predicate WantsStatus() { status.Open? || status.Remediated? }
  }

  type IssueJoin = JoinDef<Name, Alias, IssueFilter>

  function TableOf(a: Alias): Table<Alias> {
    match a
    case I => Table("Issue I", I)
    case IM => Table("IssueMatch IM", IM)
    case CI => Table("ComponentInstance CI", CI)
    case CV => Table("ComponentVersion CV", CV)
    case S => Table("Service S", S)
    case SGS => Table("SupportGroupService SGS", SGS)
    case SG => Table("SupportGroup SG", SG)
    case IV => Table("IssueVariant IV", IV)
    case CVI => Table("ComponentVersionIssue CVI", CVI)
    case R => Table("Remediation R", R)
    case MVL => Table("mvVulnerabilityList MVL", MVL)
    case MVS => Table("mvVulnerabilityService MVS", MVS)
  }

  function AliasOf(n: Name): Alias {
    match n
    case ImRight => IM
    case ImLeft => IM
    case CiRight => CI
    case CiLeft => CI
    case CvRight => CV
    case CvLeft => CV
    case SRight => S
    case SLeft => S
    case Sgs => SGS
    case Sg => SG
    case Iv => IV
    case Cvi => CVI
    case CvUsingCvi => CV
    case RHasSAndC => R
    case RHasS => R
    case RHasC => R
    case ROnly => R
    case Mvl => MVL
    case Mvs => MVS
    case SWithMvs => S
    case SgsWithMvs => SGS
    case SgWithMvs => SG
  }

  function KindOf(n: Name): JoinType {
    match n
    case ImRight => RightJoin
    case Mvl => InnerJoin
    case Mvs => InnerJoin
    case SWithMvs => InnerJoin
    case SgsWithMvs => InnerJoin
    case SgWithMvs => InnerJoin
    case _ => LeftJoin
  }

  /** The aliases named in the ON clause. */
  function UsesOf(n: Name): set<Alias> {
    match n
    case ImRight => {I, IM}
    case ImLeft => {I, IM}
    case CiRight => {IM, CI}
    case CiLeft => {IM, CI}
    case CvRight => {CI, CV}
    case CvLeft => {CI, CV}
    case SRight => {CI, S}
    case SLeft => {CI, S}
    case Sgs => {CI, SGS}
    case Sg => {SGS, SG}
    case Iv => {I, IV}
    case Cvi => {I, CVI}
    case CvUsingCvi => {CVI, CV}
    case RHasSAndC => {I, R, CI, CV}
    case RHasS => {I, R, CI}
    case RHasC => {I, R, CV}
    case ROnly => {I, R}
    case Mvl => {I, MVL}
    case Mvs => {I, MVS}
    case SWithMvs => {MVS, S}
    case SgsWithMvs => {MVS, SGS}
    case SgWithMvs => {SGS, SG}
  }

  function DependsOnOf(n: Name): seq<Name> {
    match n
    case CiRight => [ImRight]
    case CiLeft => [ImLeft]
    case CvRight => [CiRight]
    case CvLeft => [CiLeft]
    case SRight => [CiRight]
    case SLeft => [CiLeft]
    case Sgs => [CiLeft]
    case Sg => [Sgs]
    case CvUsingCvi => [Cvi]
    case RHasSAndC => [CiLeft, CvUsingCvi]
    case RHasS => [CiLeft]
    case RHasC => [CvUsingCvi]
    case Mvs => [Mvl]
    case SWithMvs => [Mvs]
    case SgsWithMvs => [Mvs]
    case SgWithMvs => [SgsWithMvs]
    case _ => []
  }

  /** The Condition functions; DependentJoin is never triggered by itself. */
  predicate Condition(n: Name, f: IssueFilter) {
    match n
    case ImRight => f.hasIssueMatches
    case ImLeft => f.byIssueMatchStatus || f.byIssueMatchId || f.byIssueMatchSeverity
    case CiRight => false
    case CiLeft => f.byServiceId && !f.useMvVulnerabilityList
    case CvRight => f.allServices
    case CvLeft => f.byServiceCcrn && !f.useMvVulnerabilityList && !f.hasIssueMatches
    case SRight => (f.hasIssueMatches && f.byServiceCcrn) || f.allServices
    case SLeft => f.byServiceCcrn && !f.useMvVulnerabilityList && !f.hasIssueMatches
    case Sgs => false
    case Sg => f.bySupportGroupCcrn && !f.useMvVulnerabilityList
    case Iv =>
      f.byIssueVariantId || f.byIssueRepositoryId || f.bySearch || f.orderedByRating
    case Cvi => f.byComponentVersionId || f.byComponentId
    case CvUsingCvi =>
      f.byComponentId && (!f.byServiceCcrn || f.hasIssueMatches) &&
                          !f.bySupportGroupCcrn && !f.allServices
    case RHasSAndC => f.WantsStatus() && f.HasService() && f.byComponentId
    case RHasS => f.WantsStatus() && f.HasService() && !f.byComponentId
    case RHasC => f.WantsStatus() && !f.HasService() && f.byComponentId
    case ROnly => f.WantsStatus() && !f.HasService() && !f.byComponentId
    case Mvl => f.useMvVulnerabilityList
    case Mvs => f.useMvVulnerabilityList && (f.HasService() || f.bySupportGroupCcrn)
    case SWithMvs => f.useMvVulnerabilityList && f.byServiceCcrn
    case SgsWithMvs => f.useMvVulnerabilityList && f.bySupportGroupCcrn
    case SgWithMvs => f.useMvVulnerabilityList && f.bySupportGroupCcrn
  }

  /** issue.go lines 97 to 319, one row per name. */
  function Def(n: Name): (d: IssueJoin)
    ensures d.name == n
  {
    JoinDef(n, KindOf(n), TableOf(AliasOf(n)), UsesOf(n), DependsOnOf(n), Some((f: IssueFilter) => Condition(n, f)))
  }

  lemma TableAlias(a: Alias)
    ensures TableOf(a).alias == a
  {
  }

  const NAMES: seq<Name> := [
    ImRight, ImLeft, CiRight, CiLeft, CvRight, CvLeft, SRight, SLeft, Sgs, Sg, Iv, Cvi, CvUsingCvi,
    RHasSAndC, RHasS, RHasC, ROnly, Mvl, Mvs, SWithMvs, SgsWithMvs, SgWithMvs]

  function DefsOf(names: seq<Name>): (defs: seq<IssueJoin>)
    ensures |defs| == |names|
  {
    seq(|names|, i requires 0 <= i < |names| => Def(names[i]))
  }

  function Rank(n: Name): nat {
    match n
    case ImRight => 0
    case ImLeft => 0
    case CiRight => 1
    case CiLeft => 1
    case CvRight => 2
    case CvLeft => 2
    case SRight => 2
    case SLeft => 2
    case Sgs => 2
    case Sg => 3
    case Iv => 0
    case Cvi => 0
    case CvUsingCvi => 1
    case RHasSAndC => 2
    case RHasS => 2
    case RHasC => 2
    case ROnly => 0
    case Mvl => 0
    case Mvs => 1
    case SWithMvs => 2
    case SgsWithMvs => 2
    case SgWithMvs => 3
  }

  /** Looking a name up in the table finds its definition. */
  lemma {:induction false} FindsDef(names: seq<Name>, n: Name)
    ensures Find(DefsOf(names), n) == if n in names then Some(Def(n)) else None
  {
    if names != [] {
      assert DefsOf(names)[1..] == DefsOf(names[1..]);
      FindsDef(names[1..], n);
      assert names == [names[0]] + names[1..];
    }
  }

  lemma EveryNameListed(n: Name)
    ensures n in NAMES
  {
    var i := match n
      case ImRight => 0
      case ImLeft => 1
      case CiRight => 2
      case CiLeft => 3
      case CvRight => 4
      case CvLeft => 5
      case SRight => 6
      case SLeft => 7
      case Sgs => 8
      case Sg => 9
      case Iv => 10
      case Cvi => 11
      case CvUsingCvi => 12
      case RHasSAndC => 13
      case RHasS => 14
      case RHasC => 15
      case ROnly => 16
      case Mvl => 17
      case Mvs => 18
      case SWithMvs => 19
      case SgsWithMvs => 20
      case SgWithMvs => 21;
    assert NAMES[i] == n;
  }

  lemma FindInTable(n: Name)
    ensures Find(DefsOf(NAMES), n) == Some(Def(n))
  {
    EveryNameListed(n);
    FindsDef(NAMES, n);
  }

  lemma DependenciesOfDef(n: Name, dep: Name)
    requires dep in DependsOnOf(n)
    ensures Rank(dep) < Rank(n)
  {
  }

  /** The dependency that provides alias a. */
  function Provider(n: Name, a: Alias): Name {
    match n
    case CiRight => ImRight
    case CiLeft => ImLeft
    case CvRight => CiRight
    case CvLeft => CiLeft
    case SRight => CiRight
    case SLeft => CiLeft
    case Sgs => CiLeft
    case Sg => Sgs
    case CvUsingCvi => Cvi
    case RHasSAndC => if a.CV? then CvUsingCvi else CiLeft
    case RHasS => CiLeft
    case RHasC => CvUsingCvi
    case Mvs => Mvl
    case SWithMvs => Mvs
    case SgsWithMvs => Mvs
    case SgWithMvs => SgsWithMvs
    case _ => n
  }

  lemma AliasOfDef(n: Name, a: Alias)
    requires a in UsesOf(n) && a != I && a != AliasOf(n)
    ensures Provider(n, a) in DependsOnOf(n) && AliasOf(Provider(n, a)) == a
  {
    if n.RHasSAndC? {
      assert DependsOnOf(n)[1] == CvUsingCvi;
    }
    assert DependsOnOf(n)[0] in DependsOnOf(n);
  }

  /** The table meets everything the resolver needs, with issues as the base table. */
  lemma TableIsSound()
    ensures Acyclic(DefsOf(NAMES), Rank) && DependenciesKnown(DefsOf(NAMES)) && WellScoped(DefsOf(NAMES), I)
  {
    var defs := DefsOf(NAMES);
    forall n
      ensures Find(defs, n) == Some(Def(n))
    {
      FindInTable(n);
    }
    forall n, dep | Find(defs, n).Some? && dep in Find(defs, n).value.dependsOn
      ensures Rank(dep) < Rank(n)
    {
      DependenciesOfDef(n, dep);
    }
    forall n, a | Find(defs, n).Some? && a in Find(defs, n).value.uses
      ensures a == I || a == Find(defs, n).value.table.alias ||
              exists dep :: dep in Find(defs, n).value.dependsOn && Find(defs, dep).Some? &&
                            Find(defs, dep).value.table.alias == a
    {
      TableAlias(AliasOf(n));
      if a != I && a != AliasOf(n) {
        AliasOfDef(n, a);
        TableAlias(a);
      }
    }
  }

  /** For every issue filter and order, and any forced joins, the resolver succeeds and its joins are the least
      closed set, each table once, each alias in scope. */
  method BuildIssueJoins(filter: IssueFilter, forced: seq<Name>) returns (joins: seq<IssueJoin>)
    ensures Readable(joins, I)
    ensures exists order :: LeastClosure(DefsOf(NAMES), Wanted(filter, forced), order) && Known(DefsOf(NAMES), order) &&
              joins == EmittedOf(DefsOf(NAMES), order)
  {
    TableIsSound();
    forall n
      ensures Find(DefsOf(NAMES), n).Some?
    {
      FindInTable(n);
    }
    var resolver := new JoinResolver(DefsOf(NAMES), forced);
    var ok;
    ok, joins := resolver.Build(filter, Rank, I);
    RootsAreWanted(resolver, filter);
  }

  ghost function Wanted(filter: IssueFilter, forced: seq<Name>): set<Name> {
    Elems(forced) + set n: Name | Triggered(Def(n), filter)
  }

  lemma RootsAreWanted(resolver: JoinResolver<Name, Alias, IssueFilter>, filter: IssueFilter)
    requires resolver.defs == DefsOf(NAMES)
    ensures resolver.Roots(filter) == Wanted(filter, resolver.forcedJoin)
  {
    var defs := DefsOf(NAMES);
    forall n: Name | Triggered(Def(n), filter)
      ensures n in resolver.Roots(filter)
    {
      EveryNameListed(n);
      var i :| 0 <= i < |NAMES| && NAMES[i] == n;
      assert defs[i] == Def(n) && defs[i] in defs;
    }
  }
}
