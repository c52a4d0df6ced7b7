/**
 * The distribution simulation: its guards, the two allocations, and one row per member.
 * Failures of the allocators and of the final check stand as Internal.
 */
module Simulation {
  import opened Basics
  import opened Sorting
  import opened Sums
  import opened Allocation
  import opened AllocationFacts

  datatype Member = Member(id: Id, socio: bool, active: bool)

  datatype Basis = WorkShifts | KnownMinutes

  /** A member's active shifts in the period. */
  datatype Work = Work(shifts: nat, minutes: nat, unknown: nat)

  datatype Row = Row(id: Id, partner: int, work: int)

  datatype Failure = ExceedsAvailable | NoPartners | NoWork | Internal

  // ----- the work aggregate --------------------------------------------------------------------

  /** An active shift of the period; its duration may be unknown. */
  datatype Shift = Shift(member: Id, minutes: Option<nat>)

  /** One row of a query grouped by member. */
  datatype Group = Group(member: Id, count: nat, minutes: nat)

  function ShiftsOf(shifts: seq<Shift>, member: Id): nat {
    if shifts == [] then 0 else ShiftsOf(shifts[1..], member) + if shifts[0].member == member then 1 else 0
  }

  function MinutesOf(shifts: seq<Shift>, member: Id): nat {
    if shifts == [] then 0 else
      MinutesOf(shifts[1..], member) + if shifts[0].member == member && shifts[0].minutes.Some? then shifts[0].minutes.value else 0
  }

  function UnknownOf(shifts: seq<Shift>, member: Id): nat {
    if shifts == [] then 0 else
      UnknownOf(shifts[1..], member) + if shifts[0].member == member && shifts[0].minutes.None? then 1 else 0
  }

  function GroupMember(): Group -> Id { (g: Group) => g.member }

  /** The two grouped queries: one row per member with a shift, and one per member with a shift of unknown duration. */
  ghost predicate Grouped(shifts: seq<Shift>, grouped: seq<Group>, unknown: seq<Group>) {
    && DistinctKeys(grouped, GroupMember()) && DistinctKeys(unknown, GroupMember())
    && (forall m :: ShiftsOf(shifts, m) > 0 <==> exists k :: 0 <= k < |grouped| && grouped[k].member == m)
    && (forall m :: UnknownOf(shifts, m) > 0 <==> exists k :: 0 <= k < |unknown| && unknown[k].member == m)
    && (forall k :: 0 <= k < |grouped| ==>
          grouped[k].count == ShiftsOf(shifts, grouped[k].member) && grouped[k].minutes == MinutesOf(shifts, grouped[k].member))
    && (forall k :: 0 <= k < |unknown| ==> unknown[k].count == UnknownOf(shifts, unknown[k].member))
  }

  lemma {:induction false} UnknownAreShifts(shifts: seq<Shift>, member: Id)
    ensures UnknownOf(shifts, member) <= ShiftsOf(shifts, member)
  {
    if shifts != [] { UnknownAreShifts(shifts[1..], member); }
  }

  /** Both loops together aggregate every member with a shift; the second never meets an absent key. */
  method Aggregate(ghost shifts: seq<Shift>, grouped: seq<Group>, unknown: seq<Group>) returns (work: map<Id, Work>)
    requires Grouped(shifts, grouped, unknown)
    ensures forall m :: m in work <==> ShiftsOf(shifts, m) > 0
    ensures forall m :: m in work ==> work[m] == Work(ShiftsOf(shifts, m), MinutesOf(shifts, m), UnknownOf(shifts, m))
  {
    work := map[];
    for i := 0 to |grouped|
      invariant forall m :: m in work <==> exists k :: 0 <= k < i && grouped[k].member == m
      invariant forall m :: m in work ==> work[m] == Work(ShiftsOf(shifts, m), MinutesOf(shifts, m), 0)
    {
      work := work[grouped[i].member := Work(grouped[i].count, grouped[i].minutes, 0)];
    }
    for i := 0 to |unknown|
      invariant forall m :: m in work <==> ShiftsOf(shifts, m) > 0
      invariant forall m :: m in work ==>
        work[m] == Work(ShiftsOf(shifts, m), MinutesOf(shifts, m),
                        if exists k :: 0 <= k < i && unknown[k].member == m then UnknownOf(shifts, m) else 0)
    {
      var member := unknown[i].member;
      assert UnknownOf(shifts, member) > 0;
      UnknownAreShifts(shifts, member);
      work := work[member := work[member].(unknown := unknown[i].count)];
    }
  }

  // ----- the simulation ------------------------------------------------------------------------

  function UnitsOf(basis: Basis, work: Work): nat {
    if basis == WorkShifts then work.shifts else work.minutes
  }

  function MemberId(): Member -> Id { (m: Member) => m.id }
  function IsPartner(): Member -> bool { (m: Member) => m.socio && m.active }
  function ZeroShare(): Weighted -> Share { (w: Weighted) => Share(w.id, 0) }
  function PartnerPart(): Row -> int { (r: Row) => r.partner }
  function WorkPart(): Row -> int { (r: Row) => r.work }
  function TotalPart(): Row -> int { (r: Row) => r.partner + r.work }

  function PartnerIds(members: seq<Member>): seq<Id> { Map(Filter(members, IsPartner()), MemberId()) }

  /** The amount of an id in a share list, or 0. */
  function Lookup(shares: seq<Share>, id: Id): int {
    if shares == [] then 0 else if shares[0].id == id then shares[0].amount else Lookup(shares[1..], id)
  }

  /** The members shown: the active partners and everybody who worked. */
  function Counted(partnerIds: seq<Id>, weights: seq<Weighted>): Member -> bool {
    (m: Member) => m.id in partnerIds || exists i :: 0 <= i < |weights| && weights[i].id == m.id
  }

  function RowOf(partners: seq<Share>, works: seq<Share>): Member -> Row {
    (m: Member) => Row(m.id, Lookup(partners, m.id), Lookup(works, m.id))
  }

  function Rows(members: seq<Member>, counted: Member -> bool, partners: seq<Share>, works: seq<Share>): seq<Row> {
    Map(Sort(Filter(members, counted), MemberId(), IdLess), RowOf(partners, works))
  }

  function WorkShares(pool: int, weights: seq<Weighted>): Result<seq<Share>, Problem> {
    if Total(weights) == 0 then Ok(Map(weights, ZeroShare())) else ByWeight(pool, weights)
  }

  function Simulate(available: int, requested: int, partnerBps: int, workBps: int, members: seq<Member>, weights: seq<Weighted>)
    : Result<seq<Row>, Failure>
  {
    if requested > available then Err(ExceedsAvailable)
    else
      match SplitPools(requested, partnerBps)
      case Err(_) => Err(Internal)
      case Ok(pools) =>
        if partnerBps > 0 && |PartnerIds(members)| == 0 then Err(NoPartners)
        else if workBps > 0 && Total(weights) == 0 then Err(NoWork)
        else
          match (AllocateEqual(pools.partner, PartnerIds(members)), WorkShares(pools.work, weights))
          case (Ok(partners), Ok(works)) =>
            var rows := Rows(members, Counted(PartnerIds(members), weights), partners, works);
            if SumOf(rows, TotalPart()) == requested then Ok(rows) else Err(Internal)
          case _ => Err(Internal)
  }

  /** What the request form and the database promise: shares of 10000, distinct members, each worked member among them. */
  ghost predicate Promised(requested: int, partnerBps: int, workBps: int, members: seq<Member>, weights: seq<Weighted>) {
    && requested >= 1 && 0 <= partnerBps && 0 <= workBps && partnerBps + workBps == BPS_TOTAL
    && DistinctKeys(members, MemberId()) && DistinctKeys(weights, ItemId())
    && (forall i :: 0 <= i < |weights| ==> weights[i].weight >= 0 && exists j :: 0 <= j < |members| && members[j].id == weights[i].id)
  }

  // ----- sums of lookups -----------------------------------------------------------------------

  lemma {:induction false} OneHit(members: seq<Member>, id: Id, amount: int, hit: Member -> int)
    requires DistinctKeys(members, MemberId()) && forall m :: hit(m) == if m.id == id then amount else 0
    ensures SumOf(members, hit) == if exists j :: 0 <= j < |members| && members[j].id == id then amount else 0
  {
    if members != [] {
      var rest := members[1..];
      assert forall j :: 0 <= j < |rest| ==> rest[j] == members[j + 1];
      assert DistinctKeys(rest, MemberId());
      OneHit(rest, id, amount, hit);
      if members[0].id == id {
        forall j | 0 <= j < |rest| ensures rest[j].id != id { assert MemberId()(members[0]) != MemberId()(members[j + 1]); }
      } else if exists j :: 0 <= j < |members| && members[j].id == id {
        var j :| 0 <= j < |members| && members[j].id == id;
        assert rest[j - 1].id == id;
      }
    }
  }

  lemma {:induction false} NotListed(shares: seq<Share>, id: Id)
    requires forall s :: s in shares ==> s.id != id
    ensures Lookup(shares, id) == 0
  {
    if shares != [] { NotListed(shares[1..], id); }
  }

  /** Looking every member up loses no share, as long as each share belongs to a member. */
  lemma {:induction false} LookupsAddUp(members: seq<Member>, shares: seq<Share>, look: Member -> int)
    requires DistinctKeys(members, MemberId()) && DistinctKeys(shares, ShareId())
    requires forall m :: look(m) == Lookup(shares, m.id)
    requires forall s :: s in shares ==> exists j :: 0 <= j < |members| && members[j].id == s.id
    ensures SumOf(members, look) == SumOf(shares, AmountIn())
  {
    if shares == [] {
      SumConstant(members, look, 0);
    } else {
      var s, rest := shares[0], shares[1..];
      var hit := (m: Member) => if m.id == s.id then s.amount else 0;
      var others := (m: Member) => Lookup(rest, m.id);
      assert DistinctKeys(rest, ShareId());
      forall r | r in rest ensures r.id != s.id {
        var j :| 0 <= j < |rest| && rest[j] == r;
        assert ShareId()(shares[0]) != ShareId()(shares[j + 1]);
      }
      NotListed(rest, s.id);
      OneHit(members, s.id, s.amount, hit);
      LookupsAddUp(members, rest, others);
      SumPlus(members, hit, others, look);
    }
  }

  lemma RowsLookUp(members: seq<Member>, counted: Member -> bool, partners: seq<Share>, works: seq<Share>, part: Row -> int, look: Member -> int)
    requires forall m :: look(m) == part(RowOf(partners, works)(m))
    requires forall m :: m in members && !counted(m) ==> look(m) == 0
    ensures SumOf(Rows(members, counted, partners, works), part) == SumOf(members, look)
  {
    var kept := Filter(members, counted);
    var sorted := Sort(kept, MemberId(), IdLess);
    SumMap(sorted, RowOf(partners, works), part, look);
    SortPermutes(kept, MemberId(), IdLess);
    SumPermutes(sorted, kept, look);
    SumFilter(members, counted, look);
  }

  /** Each share belongs to a member that is shown. */
  ghost predicate Owned(members: seq<Member>, counted: Member -> bool, shares: seq<Share>) {
    && DistinctKeys(shares, ShareId())
    && (forall s :: s in shares ==> exists j :: 0 <= j < |members| && members[j].id == s.id)
    && (forall s, m :: s in shares && m in members && m.id == s.id ==> counted(m))
  }

  /** Partner parts add up to the partner shares and work parts to the work shares. */
  lemma RowsAddUp(members: seq<Member>, counted: Member -> bool, partners: seq<Share>, works: seq<Share>)
    requires DistinctKeys(members, MemberId()) && Owned(members, counted, partners) && Owned(members, counted, works)
    ensures var rows := Rows(members, counted, partners, works);
            && SumOf(rows, PartnerPart()) == SumOf(partners, AmountIn())
            && SumOf(rows, WorkPart()) == SumOf(works, AmountIn())
            && SumOf(rows, TotalPart()) == SumOf(partners, AmountIn()) + SumOf(works, AmountIn())
  {
    var p, w := (m: Member) => Lookup(partners, m.id), (m: Member) => Lookup(works, m.id);
    forall m | m in members && !counted(m) ensures p(m) == 0 && w(m) == 0 {
      NotListed(partners, m.id);
      NotListed(works, m.id);
    }
    RowsLookUp(members, counted, partners, works, PartnerPart(), p);
    RowsLookUp(members, counted, partners, works, WorkPart(), w);
    LookupsAddUp(members, partners, p);
    LookupsAddUp(members, works, w);
    SumPlus(Rows(members, counted, partners, works), PartnerPart(), WorkPart(), TotalPart());
  }

  // ----- the two allocations -------------------------------------------------------------------

  lemma {:induction false} EqualAddsUp(ids: seq<Id>, base: int, extra: int)
    requires 0 <= extra <= |ids|
    ensures SumOf(EqualShares(ids, base, extra), AmountIn()) == base * |ids| + extra
  {
    if ids != [] {
      var shares, rest := EqualShares(ids, base, extra), if extra > 0 then extra - 1 else 0;
      assert shares[1..] == EqualShares(ids[1..], base, rest);
      EqualAddsUp(ids[1..], base, rest);
    }
  }

  lemma Division(pool: int, n: nat) returns (base: int, extra: int)
    requires n > 0
    ensures base == pool / n && extra == pool % n && 0 <= extra < n && pool == base * n + extra
  {
    base, extra := pool / n, pool % n;
  }

  /** The ids of the equal split are the ids given, in order. */
  lemma EqualIds(ids: seq<Id>, base: int, extra: int)
    requires Unique(ids)
    ensures var shares := EqualShares(Sort(ids, IdOf(), IdLess), base, extra);
            && |shares| == |ids| && DistinctKeys(shares, ShareId())
            && (forall s :: s in shares ==> s.id in ids)
            && (forall id :: id in ids ==> exists k :: 0 <= k < |shares| && shares[k].id == id)
  {
    var sorted := Sort(ids, IdOf(), IdLess);
    var shares := EqualShares(sorted, base, extra);
    SortPermutes(ids, IdOf(), IdLess);
    SameElements(sorted, ids);
    SameElements(ids, sorted);
    assert |multiset(sorted)| == |multiset(ids)|;
    UniqueMeansDistinct(ids);
    AheadIsTotal();
    SortAscends(ids, IdOf(), IdLess);
    hide Sort, EqualShares, StrictTotal;
    forall i, j | 0 <= i < j < |shares| ensures ShareId()(shares[i]) != ShareId()(shares[j]) {
      assert IdLess(IdOf()(sorted[i]), IdOf()(sorted[j]));
    }
    forall id | id in ids ensures exists k :: 0 <= k < |shares| && shares[k].id == id {
      var k :| 0 <= k < |sorted| && sorted[k] == id;
      assert shares[k].id == id;
    }
  }

  /** The equal split adds up to its pool, with one share for every id and for nobody else. */
  lemma EqualIsExact(pool: int, ids: seq<Id>)
    requires AllocateEqual(pool, ids).Ok?
    ensures var shares := AllocateEqual(pool, ids).value;
            && SumOf(shares, AmountIn()) == pool
            && |shares| == |ids| && DistinctKeys(shares, ShareId())
            && (forall s :: s in shares ==> s.id in ids)
            && (forall id :: id in ids ==> exists k :: 0 <= k < |shares| && shares[k].id == id)
  {
    if ids != [] {
      var sorted := Sort(ids, IdOf(), IdLess);
      EqualIds(ids, pool / |ids|, pool % |ids|);
      hide DistinctKeys, EqualShares, Sort;
      var base, extra := Division(pool, |ids|);
      EqualAddsUp(sorted, base, extra);
    }
  }

  lemma SortKeepsShares(shares: seq<Share>)
    requires DistinctKeys(shares, ShareId())
    ensures DistinctKeys(Sort(shares, ShareId(), IdLess), ShareId())
    ensures forall s :: s in Sort(shares, ShareId(), IdLess) ==> s in shares
  {
    var sorted := Sort(shares, ShareId(), IdLess);
    AheadIsTotal();
    SortAscends(shares, ShareId(), IdLess);
    SortPermutes(shares, ShareId(), IdLess);
    SameElements(sorted, shares);
    forall i, j | 0 <= i < j < |sorted| ensures ShareId()(sorted[i]) != ShareId()(sorted[j]) {
      assert IdLess(ShareId()(sorted[i]), ShareId()(sorted[j]));
    }
  }

  lemma SharesKeepIds(weights: seq<Weighted>, m: Weighted -> Share)
    requires DistinctKeys(weights, ItemId()) && forall w :: m(w).id == w.id
    ensures DistinctKeys(Map(weights, m), ShareId())
    ensures forall s :: s in Map(weights, m) ==> exists i :: 0 <= i < |weights| && weights[i].id == s.id
  {
    ShareKeepsIds(0, weights, m);
  }

  /** The work split adds up to its pool, one share per worked member. */
  lemma WorkIsExact(pool: int, weights: seq<Weighted>)
    requires DistinctKeys(weights, ItemId()) && (forall w :: w in weights ==> w.weight >= 0)
    requires pool >= 0 && (Total(weights) == 0 ==> pool == 0)
    ensures WorkShares(pool, weights).Ok?
    ensures var shares := WorkShares(pool, weights).value;
            && SumOf(shares, AmountIn()) == pool
            && DistinctKeys(shares, ShareId())
            && forall s :: s in shares ==> exists i :: 0 <= i < |weights| && weights[i].id == s.id
  {
    TotalIsPositive(weights);
    if Total(weights) == 0 {
      SharesKeepIds(weights, ZeroShare());
      SumConstant(Map(weights, ZeroShare()), AmountIn(), 0);
    } else {
      SucceedsExactlyWhen(pool, weights);
      ResultAddsUp(pool, weights);
      SharesKeepIds(weights, ShareOf(pool, weights));
      SortKeepsShares(Map(weights, ShareOf(pool, weights)));
    }
  }

  lemma PartnersAreMembers(members: seq<Member>)
    requires DistinctKeys(members, MemberId())
    ensures Unique(PartnerIds(members))
    ensures forall id :: id in PartnerIds(members) <==> exists j :: 0 <= j < |members| && members[j].id == id && IsPartner()(members[j])
  {
    var partners, ids := Filter(members, IsPartner()), PartnerIds(members);
    FilterDistinct(members, IsPartner(), MemberId());
    forall i, j | 0 <= i < j < |ids| ensures ids[i] != ids[j] { assert MemberId()(partners[i]) != MemberId()(partners[j]); }
    UniqueMeansDistinct(ids);
    forall id ensures id in ids <==> exists j :: 0 <= j < |members| && members[j].id == id && IsPartner()(members[j]) {
      if id in ids {
        var k :| 0 <= k < |ids| && ids[k] == id;
        assert partners[k] in members;
      }
      if j :| 0 <= j < |members| && members[j].id == id && IsPartner()(members[j]) {
        var k :| 0 <= k < |partners| && partners[k] == members[j];
        assert ids[k] == id;
      }
    }
  }

  // ----- conservation --------------------------------------------------------------------------

  /** The two guards are enough for the allocators: past them neither fails. */
  lemma GuardsSuffice(requested: int, partnerBps: int, workBps: int, members: seq<Member>, weights: seq<Weighted>)
    requires Promised(requested, partnerBps, workBps, members, weights)
    requires partnerBps > 0 ==> PartnerIds(members) != []
    requires workBps > 0 ==> Total(weights) != 0
    ensures SplitPools(requested, partnerBps).Ok?
    ensures var pools := SplitPools(requested, partnerBps).value;
            && AllocateEqual(pools.partner, PartnerIds(members)).Ok? && WorkShares(pools.work, weights).Ok?
            && pools.work >= 0 && (Total(weights) == 0 ==> pools.work == 0)
  {
    PoolsAreExact(requested, partnerBps);
    PartnersAreMembers(members);
    if workBps == 0 { assert partnerBps == BPS_TOTAL; }
    if partnerBps == 0 { assert requested * partnerBps == 0; }
    WorkIsExact(SplitPools(requested, partnerBps).value.work, weights);
  }

  ghost predicate Conserved(rows: seq<Row>, requested: int, pools: Pools) {
    && SumOf(rows, TotalPart()) == requested
    && SumOf(rows, PartnerPart()) == pools.partner
    && SumOf(rows, WorkPart()) == pools.work
    && pools.partner + pools.work == requested
  }

  lemma SharesAreOwned(members: seq<Member>, weights: seq<Weighted>, partners: seq<Share>, works: seq<Share>)
    requires DistinctKeys(members, MemberId()) && DistinctKeys(partners, ShareId()) && DistinctKeys(works, ShareId())
    requires forall i :: 0 <= i < |weights| ==> exists j :: 0 <= j < |members| && members[j].id == weights[i].id
    requires forall s :: s in partners ==> s.id in PartnerIds(members)
    requires forall s :: s in works ==> exists i :: 0 <= i < |weights| && weights[i].id == s.id
    ensures Owned(members, Counted(PartnerIds(members), weights), partners)
    ensures Owned(members, Counted(PartnerIds(members), weights), works)
  {
    PartnersAreMembers(members);
  }

  lemma AllocationsAddUp(requested: int, partnerBps: int, workBps: int, members: seq<Member>, weights: seq<Weighted>)
    requires Promised(requested, partnerBps, workBps, members, weights)
    requires partnerBps > 0 ==> PartnerIds(members) != []
    requires workBps > 0 ==> Total(weights) != 0
    ensures SplitPools(requested, partnerBps).Ok?
    ensures var pools := SplitPools(requested, partnerBps).value;
            var partners, works := AllocateEqual(pools.partner, PartnerIds(members)), WorkShares(pools.work, weights);
            && partners.Ok? && works.Ok?
            && Conserved(Rows(members, Counted(PartnerIds(members), weights), partners.value, works.value), requested, pools)
  {
    GuardsSuffice(requested, partnerBps, workBps, members, weights);
    PoolsAreExact(requested, partnerBps);
    var pools := SplitPools(requested, partnerBps).value;
    var ids := PartnerIds(members);
    EqualIsExact(pools.partner, ids);
    WorkIsExact(pools.work, weights);
    var partners, works := AllocateEqual(pools.partner, ids).value, WorkShares(pools.work, weights).value;
    SharesAreOwned(members, weights, partners, works);
    RowsAddUp(members, Counted(ids, weights), partners, works);
  }

  /**
   * A simulation succeeds exactly past its three guards, never fails internally, and its
   * rows add up to the request and to both pools.
   */
  lemma SimulationConserves(available: int, requested: int, partnerBps: int, workBps: int, members: seq<Member>, weights: seq<Weighted>)
    requires Promised(requested, partnerBps, workBps, members, weights)
    ensures var r := Simulate(available, requested, partnerBps, workBps, members, weights);
            && r != Err(Internal)
            && (r.Ok? <==> && requested <= available
                           && (partnerBps > 0 ==> exists j :: 0 <= j < |members| && members[j].socio && members[j].active)
                           && (workBps > 0 ==> exists w :: w in weights && w.weight > 0))
            && (r.Ok? ==> SplitPools(requested, partnerBps).Ok? && Conserved(r.value, requested, SplitPools(requested, partnerBps).value))
  {
    PoolsAreExact(requested, partnerBps);
    PartnersAreMembers(members);
    TotalIsPositive(weights);
    assert PartnerIds(members) != [] <==> exists j :: 0 <= j < |members| && IsPartner()(members[j]) by {
      if PartnerIds(members) != [] { assert PartnerIds(members)[0] in PartnerIds(members); }
      if j :| 0 <= j < |members| && IsPartner()(members[j]) { assert members[j].id in PartnerIds(members); }
    }
    if requested <= available && (partnerBps > 0 ==> PartnerIds(members) != []) && (workBps > 0 ==> Total(weights) != 0) {
      AllocationsAddUp(requested, partnerBps, workBps, members, weights);
    }
  }

  /** Without work units the work guard is never too strict: the weighted division would refuse. */
  lemma WorkGuardIsNeeded(requested: int, partnerBps: int, workBps: int, members: seq<Member>, weights: seq<Weighted>)
    requires Promised(requested, partnerBps, workBps, members, weights) && workBps > 0 && Total(weights) == 0
    ensures SplitPools(requested, partnerBps).Ok?
    ensures ByWeight(SplitPools(requested, partnerBps).value.work, weights) == Err(NoWeight)
  {
    PoolsAreExact(requested, partnerBps);
    Scale(1, requested, workBps);
    assert requested * (BPS_TOTAL - partnerBps) == requested * workBps;
    TotalIsPositive(weights);
    SucceedsExactlyWhen(SplitPools(requested, partnerBps).value.work, weights);
  }

  /**
   * The partner guard refuses more than the equal split would: exactly when the partner
   * pool is rounded to nothing, there was nothing to divide and the split would succeed.
   */
  lemma PartnerGuardIsTooStrictExactlyWhen(available: int, requested: int, partnerBps: int, workBps: int, members: seq<Member>, weights: seq<Weighted>)
    requires Promised(requested, partnerBps, workBps, members, weights)
    ensures SplitPools(requested, partnerBps).Ok?
    ensures Simulate(available, requested, partnerBps, workBps, members, weights) == Err(NoPartners)
            && AllocateEqual(SplitPools(requested, partnerBps).value.partner, PartnerIds(members)).Ok?
            <==> requested <= available && partnerBps > 0 && PartnerIds(members) == [] && requested * partnerBps < BPS_TOTAL
  {
    PoolsAreExact(requested, partnerBps);
    assert SetOf([]) == {};
  }

  /** One cent, one basis point for partners, no partner, one worker. */
  lemma PartnerGuardRefusesOneCent()
    ensures var members, weights := [Member(7, false, true)], [Weighted(7, 1)];
            && Promised(1, 1, 9999, members, weights)
            && Simulate(1, 1, 1, 9999, members, weights) == Err(NoPartners)
            && SplitPools(1, 1) == Ok(Pools(0, 1)) && AllocateEqual(0, PartnerIds(members)) == Ok([])
  {
    var members, weights := [Member(7, false, true)], [Weighted(7, 1)];
    assert members[0].id == weights[0].id;
    assert Filter(members[1..], IsPartner()) == [] && !IsPartner()(members[0]);
    assert Filter(members, IsPartner()) == [] && PartnerIds(members) == [];
    assert Promised(1, 1, 9999, members, weights);
    PartnerGuardIsTooStrictExactlyWhen(1, 1, 1, 9999, members, weights);
    PoolsAreExact(1, 1);
  }
}
