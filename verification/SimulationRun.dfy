/**
 * A whole simulation, from the grouped shifts of the period to the rows, and what each row
 * is worth: work by the units of the member's own shifts, partners in equal parts.
 */
module SimulationRun {
  import opened Basics
  import opened Sorting
  import opened Sums
  import opened Allocation
  import opened AllocationFacts
  import opened Simulation

  // ----- from the shifts of the period ----------------------------------------------------------

  /** What a member's shifts weigh on a basis. */
  function UnitsIn(basis: Basis, shifts: seq<Shift>, member: Id): nat {
    if basis == WorkShifts then ShiftsOf(shifts, member) else MinutesOf(shifts, member)
  }

  /** The weights: every member with a shift, once, with what its shifts weigh. */
  ghost predicate Weighs(basis: Basis, shifts: seq<Shift>, weights: seq<Weighted>) {
    && DistinctKeys(weights, ItemId())
    && (forall w :: w in weights ==> ShiftsOf(shifts, w.id) > 0 && w.weight == UnitsIn(basis, shifts, w.id))
    && (forall m :: ShiftsOf(shifts, m) > 0 ==> exists k :: 0 <= k < |weights| && weights[k].id == m)
  }

  /** Every entry of the aggregate becomes a weight, in the order of the entries. */
  method WeightsFrom(ghost shifts: seq<Shift>, grouped: seq<Group>, unknown: seq<Group>, basis: Basis, work: map<Id, Work>)
    returns (weights: seq<Weighted>)
    requires Grouped(shifts, grouped, unknown)
    requires forall m :: m in work <==> ShiftsOf(shifts, m) > 0
    requires forall m :: m in work ==> work[m] == Work(ShiftsOf(shifts, m), MinutesOf(shifts, m), UnknownOf(shifts, m))
    ensures Weighs(basis, shifts, weights)
  {
    weights := [];
    for i := 0 to |grouped|
      invariant |weights| == i
      invariant forall k :: 0 <= k < i ==> weights[k] == Weighted(grouped[k].member, UnitsIn(basis, shifts, grouped[k].member))
    {
      assert ShiftsOf(shifts, grouped[i].member) > 0;
      weights := weights + [Weighted(grouped[i].member, UnitsOf(basis, work[grouped[i].member]))];
    }
    assert DistinctKeys(weights, ItemId()) by {
      forall i, j | 0 <= i < j < |weights| ensures ItemId()(weights[i]) != ItemId()(weights[j]) {
        assert GroupMember()(grouped[i]) != GroupMember()(grouped[j]);
      }
    }
    forall m | ShiftsOf(shifts, m) > 0 ensures exists k :: 0 <= k < |weights| && weights[k].id == m {
      var k :| 0 <= k < |grouped| && grouped[k].member == m;
      assert weights[k].id == m;
    }
  }

  lemma WeighedIsPromised(requested: int, partnerBps: int, workBps: int, members: seq<Member>, basis: Basis, shifts: seq<Shift>, weights: seq<Weighted>)
    requires requested >= 1 && 0 <= partnerBps && 0 <= workBps && partnerBps + workBps == BPS_TOTAL
    requires DistinctKeys(members, MemberId()) && Weighs(basis, shifts, weights)
    requires forall m :: ShiftsOf(shifts, m) > 0 ==> exists j :: 0 <= j < |members| && members[j].id == m
    ensures Promised(requested, partnerBps, workBps, members, weights)
    ensures (exists w :: w in weights && w.weight > 0) <==> exists m :: UnitsIn(basis, shifts, m) > 0
  {
    forall i | 0 <= i < |weights| ensures weights[i].weight >= 0 && exists j :: 0 <= j < |members| && members[j].id == weights[i].id {
      assert weights[i] in weights;
    }
    if m :| UnitsIn(basis, shifts, m) > 0 {
      NoMinutesWithoutShifts(shifts, m);
      var k :| 0 <= k < |weights| && weights[k].id == m;
      assert weights[k] in weights;
    }
    if w :| w in weights && w.weight > 0 { assert UnitsIn(basis, shifts, w.id) > 0; }
  }

  lemma {:induction false} NoMinutesWithoutShifts(shifts: seq<Shift>, member: Id)
    ensures MinutesOf(shifts, member) > 0 ==> ShiftsOf(shifts, member) > 0
  {
    if shifts != [] { NoMinutesWithoutShifts(shifts[1..], member); }
  }

  /** Whoever is shown: exactly the members counted. */
  lemma RowsAreShown(members: seq<Member>, counted: Member -> bool, partners: seq<Share>, works: seq<Share>, id: Id)
    ensures (exists r :: r in Rows(members, counted, partners, works) && r.id == id) <==> exists m :: m in members && counted(m) && m.id == id
  {
    var kept := Filter(members, counted);
    var sorted := Sort(kept, MemberId(), IdLess);
    SortPermutes(kept, MemberId(), IdLess);
    SameElements(sorted, kept);
    SameElements(kept, sorted);
    assert forall m :: m in sorted <==> m in members && counted(m);
    assert Rows(members, counted, partners, works) == Map(sorted, RowOf(partners, works));
    hide Sort, Filter, Rows;
    MappedIds(sorted, partners, works, id);
  }

  lemma MappedIds(shown: seq<Member>, partners: seq<Share>, works: seq<Share>, id: Id)
    ensures (exists r :: r in Map(shown, RowOf(partners, works)) && r.id == id) <==> exists m :: m in shown && m.id == id
  {
    hide Lookup;
    var rows := Map(shown, RowOf(partners, works));
    if r :| r in rows && r.id == id {
      var k :| 0 <= k < |rows| && rows[k] == r;
      assert shown[k].id == id;
    }
    if m :| m in shown && m.id == id {
      var k :| 0 <= k < |shown| && shown[k] == m;
      assert rows[k].id == id && rows[k] in rows;
    }
  }

  // ----- what each member gets ------------------------------------------------------------------

  /** The units of all shifts together. */
  function AllUnits(basis: Basis, shifts: seq<Shift>): nat {
    if shifts == [] then 0 else
      AllUnits(basis, shifts[1..])
      + if basis == WorkShifts then 1 else if shifts[0].minutes.Some? then shifts[0].minutes.value else 0
  }

  /** An integer share of a pool by weight: the exact share when it is whole, else one of the two integers around it. */
  predicate Around(amount: int, pool: int, weight: int, total: int)
    requires total > 0
  {
    && amount * total <= pool * weight + (total - 1) && pool * weight <= amount * total + (total - 1)
    && (pool * weight % total == 0 ==> amount * total == pool * weight)
  }

  /** Work is paid by the units of each member's own shifts. */
  ghost predicate WorkIsFair(rows: seq<Row>, pool: int, basis: Basis, shifts: seq<Shift>) {
    && (forall r :: r in rows ==> FairShare(r.work, pool, basis, shifts, r.id))
    && (forall r, q :: r in rows && q in rows && UnitsIn(basis, shifts, r.id) < UnitsIn(basis, shifts, q.id) ==> r.work <= q.work)
    && (forall r, q :: r in rows && q in rows && UnitsIn(basis, shifts, r.id) == UnitsIn(basis, shifts, q.id) && r.id < q.id
          ==> 0 <= r.work - q.work <= 1)
  }

  ghost predicate ActivePartner(members: seq<Member>, id: Id) {
    exists m :: m in members && m.id == id && m.socio && m.active
  }

  /** Every active partner gets an equal part, the first ones by id an odd unit more; nobody else gets any. */
  ghost predicate PartnersAreEqual(rows: seq<Row>, pool: int, members: seq<Member>) {
    && (forall r :: r in rows ==> EqualPart(r.partner, pool, members, r.id))
    && (forall r, q :: r in rows && q in rows && ActivePartner(members, r.id) && ActivePartner(members, q.id) && r.id < q.id
          ==> 0 <= r.partner - q.partner <= 1)
  }

  function UnitsFor(basis: Basis, shifts: seq<Shift>): Weighted -> int { (w: Weighted) => UnitsIn(basis, shifts, w.id) }

  lemma {:induction false} OneWeightHit(weights: seq<Weighted>, id: Id, amount: int, hit: Weighted -> int)
    requires DistinctKeys(weights, ItemId()) && forall w :: hit(w) == if w.id == id then amount else 0
    ensures SumOf(weights, hit) == if exists j :: 0 <= j < |weights| && weights[j].id == id then amount else 0
  {
    if weights != [] {
      var rest := weights[1..];
      assert forall j :: 0 <= j < |rest| ==> rest[j] == weights[j + 1];
      assert DistinctKeys(rest, ItemId());
      OneWeightHit(rest, id, amount, hit);
      if weights[0].id == id {
        forall j | 0 <= j < |rest| ensures rest[j].id != id { assert ItemId()(weights[0]) != ItemId()(weights[j + 1]); }
      } else if exists j :: 0 <= j < |weights| && weights[j].id == id {
        var j :| 0 <= j < |weights| && weights[j].id == id;
        assert rest[j - 1].id == id;
      }
    }
  }

  /** The units of all members together are the units of all shifts. */
  lemma {:induction false} UnitsAddUp(weights: seq<Weighted>, basis: Basis, shifts: seq<Shift>)
    requires DistinctKeys(weights, ItemId())
    requires forall i :: 0 <= i < |shifts| ==> exists k :: 0 <= k < |weights| && weights[k].id == shifts[i].member
    ensures SumOf(weights, UnitsFor(basis, shifts)) == AllUnits(basis, shifts)
    decreases |shifts|
  {
    if shifts == [] {
      SumConstant(weights, UnitsFor(basis, shifts), 0);
    } else {
      var s, rest := shifts[0], shifts[1..];
      var units := if basis == WorkShifts then 1 else if s.minutes.Some? then s.minutes.value else 0;
      var hit := (w: Weighted) => if w.id == s.member then units else 0;
      UnitsAddUp(weights, basis, rest);
      OneWeightHit(weights, s.member, units, hit);
      SumPlus(weights, UnitsFor(basis, rest), hit, UnitsFor(basis, shifts));
    }
  }

  lemma {:induction false} ShiftsCount(shifts: seq<Shift>, i: nat)
    requires i < |shifts|
    ensures ShiftsOf(shifts, shifts[i].member) > 0
  {
    if i > 0 { ShiftsCount(shifts[1..], i - 1); }
  }

  lemma TotalIsAll(basis: Basis, shifts: seq<Shift>, weights: seq<Weighted>)
    requires Weighs(basis, shifts, weights)
    ensures Total(weights) == AllUnits(basis, shifts)
  {
    forall i | 0 <= i < |shifts| ensures exists k :: 0 <= k < |weights| && weights[k].id == shifts[i].member { ShiftsCount(shifts, i); }
    UnitsAddUp(weights, basis, shifts);
    SumBelow(weights, UnitsFor(basis, shifts), WeightOf());
    SumBelow(weights, WeightOf(), UnitsFor(basis, shifts));
  }

  lemma {:induction false} LookupFinds(shares: seq<Share>, s: Share)
    requires DistinctKeys(shares, ShareId()) && s in shares
    ensures Lookup(shares, s.id) == s.amount
  {
    if shares[0] != s {
      assert shares == [shares[0]] + shares[1..];
      var k :| 0 <= k < |shares| && shares[k] == s;
      assert ShareId()(shares[0]) != ShareId()(shares[k]);
      LookupFinds(shares[1..], s);
    }
  }

  /** The work share of a weight is what the division by weight gives it. */
  lemma ShareOfWeight(pool: int, weights: seq<Weighted>, w: Weighted)
    requires Shareable(pool, weights) && w in weights
    ensures WorkShares(pool, weights).Ok? && Lookup(WorkShares(pool, weights).value, w.id) == Amount(pool, weights)(w)
  {
    var r := ResultShares(pool, weights);
    var shares := Map(weights, ShareOf(pool, weights));
    var k :| 0 <= k < |weights| && weights[k] == w;
    assert shares[k] == Share(w.id, Amount(pool, weights)(w)) && shares[k] in multiset(shares);
    SharesKeepIds(weights, ShareOf(pool, weights));
    SortKeepsShares(shares);
    assert shares[k] in multiset(r);
    LookupFinds(r, shares[k]);
  }

  /** What a member without a weight stands for: nothing at all. */
  lemma NoWeightNoShare(pool: int, weights: seq<Weighted>, id: Id)
    requires pool >= 0 && DistinctKeys(weights, ItemId()) && (forall w :: w in weights ==> w.weight >= 0)
    requires Total(weights) == 0 ==> pool == 0
    requires forall w :: w in weights ==> w.id != id
    ensures WorkShares(pool, weights).Ok? && Lookup(WorkShares(pool, weights).value, id) == 0
  {
    WorkIsExact(pool, weights);
    var shares := WorkShares(pool, weights).value;
    forall s | s in shares ensures s.id != id {
      var i :| 0 <= i < |weights| && weights[i].id == s.id;
      assert weights[i] in weights;
    }
    NotListed(shares, id);
  }

  /** A member's work amount as a share by weight, members without shifts included. */
  ghost function UnitShare(pool: int, basis: Basis, shifts: seq<Shift>, weights: seq<Weighted>, id: Id): int
    requires pool >= 0 && Weighs(basis, shifts, weights) && (AllUnits(basis, shifts) == 0 ==> pool == 0)
  {
    Lookup(match WorkShares(pool, weights) case Ok(shares) => shares case Err(_) => [], id)
  }

  lemma WeightsAreFine(basis: Basis, shifts: seq<Shift>, weights: seq<Weighted>, pool: int)
    requires Weighs(basis, shifts, weights) && pool >= 0
    ensures Total(weights) == AllUnits(basis, shifts) && forall w :: w in weights ==> w.weight >= 0
    ensures AllUnits(basis, shifts) > 0 ==> Shareable(pool, weights)
  {
    TotalIsAll(basis, shifts, weights);
  }

  lemma WeightOfMember(basis: Basis, shifts: seq<Shift>, weights: seq<Weighted>, id: Id) returns (w: Weighted)
    requires Weighs(basis, shifts, weights) && exists v :: v in weights && v.id == id
    ensures w in weights && w.id == id && w.weight == UnitsIn(basis, shifts, id)
  {
    w :| w in weights && w.id == id;
  }

  lemma WithoutWeight(basis: Basis, shifts: seq<Shift>, weights: seq<Weighted>, id: Id)
    requires Weighs(basis, shifts, weights) && !exists v :: v in weights && v.id == id
    ensures UnitsIn(basis, shifts, id) == 0
  {
    NoMinutesWithoutShifts(shifts, id);
    assert forall k :: 0 <= k < |weights| ==> weights[k] in weights;
  }

  lemma ZeroIsAround(pool: int, total: int)
    requires total > 0
    ensures Around(0, pool, 0, total)
  {
  }

  /** What is said of one member's work amount. */
  ghost predicate FairShare(amount: int, pool: int, basis: Basis, shifts: seq<Shift>, id: Id) {
    var all := AllUnits(basis, shifts);
    if all == 0 then amount == 0 else amount >= 0 && Around(amount, pool, UnitsIn(basis, shifts, id), all)
  }

  lemma FairByWeight(pool: int, basis: Basis, shifts: seq<Shift>, weights: seq<Weighted>, w: Weighted)
    requires Weighs(basis, shifts, weights) && pool >= 0 && AllUnits(basis, shifts) > 0 && w in weights
    ensures FairShare(UnitShare(pool, basis, shifts, weights, w.id), pool, basis, shifts, w.id)
  {
    WeightsAreFine(basis, shifts, weights, pool);
    hide Total, SumOf, AllUnits, Amount, Lucky, Lookup, ByWeight;
    assert w.weight == UnitsIn(basis, shifts, w.id);
    ShareOfWeight(pool, weights, w);
    ShareIsFloorOrCeiling(pool, weights, w);
  }

  lemma FairWithoutWeight(pool: int, basis: Basis, shifts: seq<Shift>, weights: seq<Weighted>, id: Id)
    requires Weighs(basis, shifts, weights) && pool >= 0 && (AllUnits(basis, shifts) == 0 ==> pool == 0)
    requires !exists v :: v in weights && v.id == id
    ensures FairShare(UnitShare(pool, basis, shifts, weights, id), pool, basis, shifts, id)
  {
    hide Total, SumOf, AllUnits, Lookup, WorkShares, Around, UnitsIn, Weighs;
    WeightsAreFine(basis, shifts, weights, pool);
    WithoutWeight(basis, shifts, weights, id);
    HaveDistinct(basis, shifts, weights);
    NoWeightNoShare(pool, weights, id);
    if AllUnits(basis, shifts) > 0 { ZeroIsAround(pool, AllUnits(basis, shifts)); }
  }

  lemma FairWithoutUnits(pool: int, basis: Basis, shifts: seq<Shift>, weights: seq<Weighted>, id: Id)
    requires Weighs(basis, shifts, weights) && pool == 0 && AllUnits(basis, shifts) == 0
    ensures FairShare(UnitShare(pool, basis, shifts, weights, id), pool, basis, shifts, id)
  {
    hide SumOf, AllUnits, Lookup, UnitsIn, Weighs;
    WeightsAreFine(basis, shifts, weights, pool);
    ZeroShares(weights, id);
  }

  lemma OneShareIsFair(pool: int, basis: Basis, shifts: seq<Shift>, weights: seq<Weighted>, id: Id)
    requires Weighs(basis, shifts, weights) && pool >= 0 && (AllUnits(basis, shifts) == 0 ==> pool == 0)
    ensures FairShare(UnitShare(pool, basis, shifts, weights, id), pool, basis, shifts, id)
  {
    hide *;
    if AllUnits(basis, shifts) == 0 {
      FairWithoutUnits(pool, basis, shifts, weights, id);
    } else if exists v :: v in weights && v.id == id {
      var w := WeightOfMember(basis, shifts, weights, id);
      FairByWeight(pool, basis, shifts, weights, w);
    } else {
      FairWithoutWeight(pool, basis, shifts, weights, id);
    }
  }

  lemma HaveDistinct(basis: Basis, shifts: seq<Shift>, weights: seq<Weighted>)
    requires Weighs(basis, shifts, weights)
    ensures DistinctKeys(weights, ItemId())
  {
  }

  lemma {:induction false} ZeroShares(weights: seq<Weighted>, id: Id)
    ensures Lookup(Map(weights, ZeroShare()), id) == 0
  {
    if weights != [] { ZeroShares(weights[1..], id); }
  }

  lemma EachIsFair(pool: int, basis: Basis, shifts: seq<Shift>, weights: seq<Weighted>, a: Id, b: Id)
    requires Weighs(basis, shifts, weights) && pool >= 0 && (AllUnits(basis, shifts) == 0 ==> pool == 0)
    ensures AllUnits(basis, shifts) == 0 ==> UnitShare(pool, basis, shifts, weights, a) == UnitShare(pool, basis, shifts, weights, b) == 0
    ensures UnitShare(pool, basis, shifts, weights, a) >= 0 && UnitShare(pool, basis, shifts, weights, b) >= 0
  {
    hide AllUnits, Weighs, UnitShare, Around;
    OneShareIsFair(pool, basis, shifts, weights, a);
    OneShareIsFair(pool, basis, shifts, weights, b);
  }

  /** The amount a member with a weight gets. */
  lemma UnitShareIs(pool: int, basis: Basis, shifts: seq<Shift>, weights: seq<Weighted>, w: Weighted)
    requires Weighs(basis, shifts, weights) && pool >= 0 && AllUnits(basis, shifts) > 0 && w in weights
    ensures Shareable(pool, weights) && UnitShare(pool, basis, shifts, weights, w.id) == Amount(pool, weights)(w)
  {
    hide AllUnits, Weighs, Total, SumOf, Amount, Lookup;
    WeightsAreFine(basis, shifts, weights, pool);
    ShareOfWeight(pool, weights, w);
  }

  /** More units never get less; equal units differ by one unit at most, in favour of the smaller id. */
  lemma TwoSharesAreFair(pool: int, basis: Basis, shifts: seq<Shift>, weights: seq<Weighted>, a: Id, b: Id)
    requires Weighs(basis, shifts, weights) && pool >= 0 && (AllUnits(basis, shifts) == 0 ==> pool == 0)
    ensures UnitsIn(basis, shifts, a) < UnitsIn(basis, shifts, b) ==>
              UnitShare(pool, basis, shifts, weights, a) <= UnitShare(pool, basis, shifts, weights, b)
    ensures UnitsIn(basis, shifts, a) == UnitsIn(basis, shifts, b) && a < b ==>
              0 <= UnitShare(pool, basis, shifts, weights, a) - UnitShare(pool, basis, shifts, weights, b) <= 1
  {
    hide Total, SumOf, AllUnits, Lucky, Weighs, UnitsIn, Around, UnitShare;
    WeightsAreFine(basis, shifts, weights, pool);
    EachIsFair(pool, basis, shifts, weights, a, b);
    var all := AllUnits(basis, shifts);
    if all > 0 {
      if exists v :: v in weights && v.id == a {
        if exists v :: v in weights && v.id == b {
          var w := WeightOfMember(basis, shifts, weights, a);
          var v := WeightOfMember(basis, shifts, weights, b);
          UnitShareIs(pool, basis, shifts, weights, w);
          UnitShareIs(pool, basis, shifts, weights, v);
          LargerWeightNeverLess(pool, weights, w, v);
        } else {
          WithoutWeight(basis, shifts, weights, b);
          NothingForNoUnits(pool, basis, shifts, weights, b);
          if UnitsIn(basis, shifts, a) == 0 { NothingForNoUnits(pool, basis, shifts, weights, a); }
        }
      } else {
        WithoutWeight(basis, shifts, weights, a);
        NothingForNoUnits(pool, basis, shifts, weights, a);
        if UnitsIn(basis, shifts, b) == 0 { NothingForNoUnits(pool, basis, shifts, weights, b); }
      }
    }
  }

  lemma NothingForNoUnits(pool: int, basis: Basis, shifts: seq<Shift>, weights: seq<Weighted>, id: Id)
    requires Weighs(basis, shifts, weights) && pool >= 0 && AllUnits(basis, shifts) > 0 && UnitsIn(basis, shifts, id) == 0
    ensures UnitShare(pool, basis, shifts, weights, id) == 0
  {
    OneShareIsFair(pool, basis, shifts, weights, id);
    var all, amount := AllUnits(basis, shifts), UnitShare(pool, basis, shifts, weights, id);
    hide *;
    OnlyZeroIsAround(amount, pool, all);
  }

  lemma OnlyZeroIsAround(amount: int, pool: int, total: int)
    requires total > 0
    ensures Around(amount, pool, 0, total) ==> amount == 0
  {
    assert pool * 0 == 0;
    if amount >= 1 { Scale(1, amount, total); }
    if amount <= -1 { Scale(amount, -1, total); }
  }

  lemma {:induction false} SortedAgain(ids: seq<Id>, i: nat, j: nat)
    requires Unique(ids) && i < |ids| && j < |ids|
    ensures var sorted := Sort(ids, IdOf(), IdLess); |sorted| == |ids| && (sorted[i] < sorted[j] <==> i < j)
  {
    var sorted := Sort(ids, IdOf(), IdLess);
    SortPermutes(ids, IdOf(), IdLess);
    assert |multiset(sorted)| == |multiset(ids)|;
    UniqueMeansDistinct(ids);
    AheadIsTotal();
    SortAscends(ids, IdOf(), IdLess);
    if i < j { assert IdLess(IdOf()(sorted[i]), IdOf()(sorted[j])); }
    if j < i { assert IdLess(IdOf()(sorted[j]), IdOf()(sorted[i])); }
  }

  /** The part of the partner at a place of the sorted list. */
  lemma PartAt(pool: int, ids: seq<Id>, id: Id) returns (place: nat)
    requires AllocateEqual(pool, ids).Ok? && id in ids
    ensures place < |ids| && |Sort(ids, IdOf(), IdLess)| == |ids| && Sort(ids, IdOf(), IdLess)[place] == id
    ensures Lookup(AllocateEqual(pool, ids).value, id) == pool / |ids| + if place < pool % |ids| then 1 else 0
  {
    var sorted := Sort(ids, IdOf(), IdLess);
    var shares := AllocateEqual(pool, ids).value;
    EqualIsExact(pool, ids);
    SortPermutes(ids, IdOf(), IdLess);
    SameElements(ids, sorted);
    assert |multiset(sorted)| == |multiset(ids)|;
    place :| 0 <= place < |sorted| && sorted[place] == id;
    assert shares[place] == Share(id, pool / |ids| + if place < pool % |ids| then 1 else 0) && shares[place] in shares;
    LookupFinds(shares, shares[place]);
  }

  lemma EqualIsAround(pool: int, n: int, odd: bool)
    requires n > 0 && (odd ==> pool % n > 0)
    ensures Around(pool / n + if odd then 1 else 0, pool, 1, n)
  {
    var base, extra := Simulation.Division(pool, n);
    assert pool * 1 == pool;
    assert (base + 1) * n == base * n + n;
    if pool * 1 % n == 0 { assert extra == 0; }
  }

  lemma OnePartIsEqual(pool: int, members: seq<Member>, id: Id)
    requires DistinctKeys(members, MemberId()) && AllocateEqual(pool, PartnerIds(members)).Ok?
    ensures EqualPart(Lookup(AllocateEqual(pool, PartnerIds(members)).value, id), pool, members, id)
  {
    var ids := PartnerIds(members);
    PartnerIdsAre(members, id);
    EqualIsExact(pool, ids);
    hide Around, AllocateEqual, PartnerIds, ActivePartner, DistinctKeys, SumOf;
    if id in ids {
      var place := PartAt(pool, ids, id);
      EqualIsAround(pool, |ids|, place < pool % |ids|);
    } else {
      NotListed(AllocateEqual(pool, ids).value, id);
    }
  }

  lemma PartnerIdsAre(members: seq<Member>, id: Id)
    requires DistinctKeys(members, MemberId())
    ensures Unique(PartnerIds(members)) && (id in PartnerIds(members) <==> ActivePartner(members, id))
  {
    PartnersAreMembers(members);
    if ActivePartner(members, id) {
      var m :| m in members && m.id == id && m.socio && m.active;
      var j :| 0 <= j < |members| && members[j] == m;
      assert IsPartner()(members[j]);
    }
  }

  lemma TwoPartsAreEqual(pool: int, members: seq<Member>, a: Id, b: Id)
    requires DistinctKeys(members, MemberId()) && AllocateEqual(pool, PartnerIds(members)).Ok?
    requires ActivePartner(members, a) && ActivePartner(members, b) && a < b
    ensures var shares := AllocateEqual(pool, PartnerIds(members)).value; 0 <= Lookup(shares, a) - Lookup(shares, b) <= 1
  {
    var ids := PartnerIds(members);
    PartnerIdsAre(members, a);
    PartnerIdsAre(members, b);
    hide AllocateEqual, PartnerIds, ActivePartner;
    var i := PartAt(pool, ids, a);
    var j := PartAt(pool, ids, b);
    SortedAgain(ids, i, j);
  }

  /** What is said of one member's part as a partner. */
  ghost predicate EqualPart(part: int, pool: int, members: seq<Member>, id: Id) {
    var n := |PartnerIds(members)|;
    if ActivePartner(members, id) then n > 0 && Around(part, pool, 1, n) else part == 0
  }

  /** The rows of a successful simulation are the two divisions, looked up. */
  lemma SimulateIs(available: int, requested: int, partnerBps: int, workBps: int, members: seq<Member>, weights: seq<Weighted>)
    requires Promised(requested, partnerBps, workBps, members, weights)
    requires Simulate(available, requested, partnerBps, workBps, members, weights).Ok?
    ensures SplitPools(requested, partnerBps).Ok?
    ensures var rows, pools := Simulate(available, requested, partnerBps, workBps, members, weights).value, SplitPools(requested, partnerBps).value;
            && pools.work >= 0 && (Total(weights) == 0 ==> pools.work == 0)
            && AllocateEqual(pools.partner, PartnerIds(members)).Ok? && WorkShares(pools.work, weights).Ok? && Ascend(rows)
            && (forall r :: r in rows ==> r.partner == Lookup(AllocateEqual(pools.partner, PartnerIds(members)).value, r.id))
            && (forall r :: r in rows ==> r.work == Lookup(WorkShares(pools.work, weights).value, r.id))
  {
    var pools := SplitPools(requested, partnerBps).value;
    GuardsSuffice(requested, partnerBps, workBps, members, weights);
    hide WorkShares, AllocateEqual, Total, PartnerIds, Rows, Ascend, Lookup;
    var ids := PartnerIds(members);
    var partners, works := AllocateEqual(pools.partner, ids).value, WorkShares(pools.work, weights).value;
    RowsAscend(members, Counted(ids, weights), partners, works);
    RowsShow(members, Counted(ids, weights), partners, works);
  }

  /** The rows of a simulation, seen from its members' shifts. */
  lemma RowsAreFair(available: int, requested: int, partnerBps: int, workBps: int, members: seq<Member>,
                    basis: Basis, shifts: seq<Shift>, weights: seq<Weighted>)
    requires Promised(requested, partnerBps, workBps, members, weights) && Weighs(basis, shifts, weights)
    requires Simulate(available, requested, partnerBps, workBps, members, weights).Ok?
    ensures SplitPools(requested, partnerBps).Ok?
    ensures var rows, pools := Simulate(available, requested, partnerBps, workBps, members, weights).value, SplitPools(requested, partnerBps).value;
            WorkIsFair(rows, pools.work, basis, shifts) && PartnersAreEqual(rows, pools.partner, members) && Ascend(rows)
  {
    hide Simulate, Total, AllUnits, SplitPools, Weighs, Promised, AllocateEqual, WorkShares, UnitsIn, Lookup, Ascend, FairShare, EqualPart,
         WorkIsFair, PartnersAreEqual, ActivePartner, PartnerIds;
    SimulateIs(available, requested, partnerBps, workBps, members, weights);
    var rows, pools := Simulate(available, requested, partnerBps, workBps, members, weights).value, SplitPools(requested, partnerBps).value;
    WeightsAreFine(basis, shifts, weights, pools.work);
    SharesOf(pools.work, basis, shifts, weights, WorkShares(pools.work, weights).value);
    WorkRows(rows, pools.work, basis, shifts, weights);
    PromisedDistinct(requested, partnerBps, workBps, members, weights);
    PartnerRows(rows, pools.partner, members);
  }

  lemma PromisedDistinct(requested: int, partnerBps: int, workBps: int, members: seq<Member>, weights: seq<Weighted>)
    requires Promised(requested, partnerBps, workBps, members, weights)
    ensures DistinctKeys(members, MemberId())
  {
  }

  lemma WorkRows(rows: seq<Row>, pool: int, basis: Basis, shifts: seq<Shift>, weights: seq<Weighted>)
    requires Weighs(basis, shifts, weights) && pool >= 0 && (AllUnits(basis, shifts) == 0 ==> pool == 0)
    requires forall r :: r in rows ==> r.work == UnitShare(pool, basis, shifts, weights, r.id)
    ensures WorkIsFair(rows, pool, basis, shifts)
  {
    hide AllUnits, UnitsIn, FairShare, UnitShare, Weighs;
    forall r | r in rows ensures FairShare(r.work, pool, basis, shifts, r.id) { OneShareIsFair(pool, basis, shifts, weights, r.id); }
    forall r, q | r in rows && q in rows ensures
        && (UnitsIn(basis, shifts, r.id) < UnitsIn(basis, shifts, q.id) ==> r.work <= q.work)
        && (UnitsIn(basis, shifts, r.id) == UnitsIn(basis, shifts, q.id) && r.id < q.id ==> 0 <= r.work - q.work <= 1)
    {
      TwoSharesAreFair(pool, basis, shifts, weights, r.id, q.id);
    }
  }

  lemma PartnerRows(rows: seq<Row>, pool: int, members: seq<Member>)
    requires DistinctKeys(members, MemberId()) && AllocateEqual(pool, PartnerIds(members)).Ok?
    requires forall r :: r in rows ==> r.partner == Lookup(AllocateEqual(pool, PartnerIds(members)).value, r.id)
    ensures PartnersAreEqual(rows, pool, members)
  {
    hide AllocateEqual, Lookup, ActivePartner, PartnerIds, EqualPart, DistinctKeys;
    forall r | r in rows ensures EqualPart(r.partner, pool, members, r.id) { OnePartIsEqual(pool, members, r.id); }
    forall r, q | r in rows && q in rows && ActivePartner(members, r.id) && ActivePartner(members, q.id) && r.id < q.id
      ensures 0 <= r.partner - q.partner <= 1
    {
      TwoPartsAreEqual(pool, members, r.id, q.id);
    }
  }

  lemma SharesOf(pool: int, basis: Basis, shifts: seq<Shift>, weights: seq<Weighted>, works: seq<Share>)
    requires pool >= 0 && Weighs(basis, shifts, weights) && (AllUnits(basis, shifts) == 0 ==> pool == 0)
    requires WorkShares(pool, weights) == Ok(works)
    ensures forall id :: UnitShare(pool, basis, shifts, weights, id) == Lookup(works, id)
  {
  }

  /** One row per member, by ascending id. */
  ghost predicate Ascend(rows: seq<Row>) { forall i, j :: 0 <= i < j < |rows| ==> rows[i].id < rows[j].id }

  lemma RowsAscend(members: seq<Member>, counted: Member -> bool, partners: seq<Share>, works: seq<Share>)
    requires DistinctKeys(members, MemberId())
    ensures Ascend(Rows(members, counted, partners, works))
  {
    var kept := Filter(members, counted);
    var sorted := Sort(kept, MemberId(), IdLess);
    FilterDistinct(members, counted, MemberId());
    AheadIsTotal();
    SortAscends(kept, MemberId(), IdLess);
    var rows := Rows(members, counted, partners, works);
    assert rows == Map(sorted, RowOf(partners, works));
    hide Sort, Filter, Rows;
    forall i, j | 0 <= i < j < |rows| ensures rows[i].id < rows[j].id {
      assert IdLess(MemberId()(sorted[i]), MemberId()(sorted[j]));
    }
  }

  lemma RowsShow(members: seq<Member>, counted: Member -> bool, partners: seq<Share>, works: seq<Share>)
    ensures forall r :: r in Rows(members, counted, partners, works) ==> r.partner == Lookup(partners, r.id) && r.work == Lookup(works, r.id)
  {
    var sorted := Sort(Filter(members, counted), MemberId(), IdLess);
    hide Sort, Filter, Lookup;
    assert forall i :: 0 <= i < |sorted| ==> Map(sorted, RowOf(partners, works))[i] == RowOf(partners, works)(sorted[i]);
  }

  lemma RefusalIs(available: int, requested: int, partnerBps: int, workBps: int, members: seq<Member>, weights: seq<Weighted>)
    requires Promised(requested, partnerBps, workBps, members, weights)
    ensures var r := Simulate(available, requested, partnerBps, workBps, members, weights);
            && (r == Err(ExceedsAvailable) <==> requested > available)
            && (r == Err(NoPartners) <==>
                  requested <= available && partnerBps > 0 && !(exists j :: 0 <= j < |members| && members[j].socio && members[j].active))
  {
    PoolsAreExact(requested, partnerBps);
    SimulationConserves(available, requested, partnerBps, workBps, members, weights);
    SomePartner(members);
    hide Rows, WorkShares, AllocateEqual, Total, Conserved;
  }

  lemma SomePartner(members: seq<Member>)
    requires DistinctKeys(members, MemberId())
    ensures |PartnerIds(members)| > 0 <==> exists j :: 0 <= j < |members| && members[j].socio && members[j].active
  {
    PartnersAreMembers(members);
    if PartnerIds(members) != [] { assert PartnerIds(members)[0] in PartnerIds(members); }
    if j :| 0 <= j < |members| && members[j].socio && members[j].active { assert IsPartner()(members[j]) && members[j].id in PartnerIds(members); }
  }

  /** The simulation from its queries to its rows. */
  method SimulateInTx(available: int, requested: int, partnerBps: int, workBps: int, basis: Basis,
                      ghost shifts: seq<Shift>, grouped: seq<Group>, unknown: seq<Group>, members: seq<Member>)
    returns (r: Result<seq<Row>, Failure>)
    requires requested >= 1 && 0 <= partnerBps && 0 <= workBps && partnerBps + workBps == BPS_TOTAL
    requires Grouped(shifts, grouped, unknown) && DistinctKeys(members, MemberId())
    requires forall m :: ShiftsOf(shifts, m) > 0 ==> exists j :: 0 <= j < |members| && members[j].id == m
    ensures r != Err(Internal)
    ensures r.Ok? <==> && requested <= available
                       && (partnerBps > 0 ==> exists j :: 0 <= j < |members| && members[j].socio && members[j].active)
                       && (workBps > 0 ==> exists m :: UnitsIn(basis, shifts, m) > 0)
    ensures r == Err(ExceedsAvailable) <==> requested > available
    ensures r == Err(NoPartners) <==> requested <= available && partnerBps > 0 && !(exists j :: 0 <= j < |members| && members[j].socio && members[j].active)
    ensures r.Ok? ==> SplitPools(requested, partnerBps).Ok?
    ensures r.Ok? ==> var pools := SplitPools(requested, partnerBps).value;
                      WorkIsFair(r.value, pools.work, basis, shifts) && PartnersAreEqual(r.value, pools.partner, members) && Ascend(r.value)
    ensures r.Ok? ==> SplitPools(requested, partnerBps).Ok? && Conserved(r.value, requested, SplitPools(requested, partnerBps).value)
    ensures r.Ok? ==> forall m :: m in members ==>
              ((exists row :: row in r.value && row.id == m.id) <==> (m.socio && m.active) || ShiftsOf(shifts, m.id) > 0)
  {
    if requested > available { return Err(ExceedsAvailable); }
    var work := Aggregate(shifts, grouped, unknown);
    var weights := WeightsFrom(shifts, grouped, unknown, basis, work);
    WeighedIsPromised(requested, partnerBps, workBps, members, basis, shifts, weights);
    SimulationConserves(available, requested, partnerBps, workBps, members, weights);
    r := Simulate(available, requested, partnerBps, workBps, members, weights);
    RefusalIs(available, requested, partnerBps, workBps, members, weights);
    hide Simulate, Conserved, Grouped, WorkIsFair, PartnersAreEqual, Ascend;
    if r.Ok? {
      RowsAreFair(available, requested, partnerBps, workBps, members, basis, shifts, weights);
      forall m | m in members
        ensures (exists row :: row in r.value && row.id == m.id) <==> (m.socio && m.active) || ShiftsOf(shifts, m.id) > 0
      {
        ShownExactly(available, requested, partnerBps, workBps, members, basis, shifts, weights, m);
      }
    }
  }

  lemma ShownExactly(available: int, requested: int, partnerBps: int, workBps: int, members: seq<Member>,
                     basis: Basis, shifts: seq<Shift>, weights: seq<Weighted>, m: Member)
    requires DistinctKeys(members, MemberId()) && Weighs(basis, shifts, weights) && m in members
    requires Simulate(available, requested, partnerBps, workBps, members, weights).Ok?
    ensures (exists row :: row in Simulate(available, requested, partnerBps, workBps, members, weights).value && row.id == m.id)
            <==> (m.socio && m.active) || ShiftsOf(shifts, m.id) > 0
  {
    var pools := SplitPools(requested, partnerBps).value;
    var counted := Counted(PartnerIds(members), weights);
    RowsAreShown(members, counted, AllocateEqual(pools.partner, PartnerIds(members)).value, WorkShares(pools.work, weights).value, m.id);
    PartnersAreMembers(members);
    CountedIs(members, basis, shifts, weights, m);
    if n :| n in members && counted(n) && n.id == m.id { SameMember(members, m, n); }
  }

  lemma SameMember(members: seq<Member>, m: Member, n: Member)
    requires DistinctKeys(members, MemberId()) && m in members && n in members && m.id == n.id
    ensures m == n
  {
    var i :| 0 <= i < |members| && members[i] == m;
    var j :| 0 <= j < |members| && members[j] == n;
    assert MemberId()(members[i]) == MemberId()(members[j]);
  }

  lemma CountedIs(members: seq<Member>, basis: Basis, shifts: seq<Shift>, weights: seq<Weighted>, m: Member)
    requires DistinctKeys(members, MemberId()) && Weighs(basis, shifts, weights) && m in members
    ensures Counted(PartnerIds(members), weights)(m) <==> (m.socio && m.active) || ShiftsOf(shifts, m.id) > 0
  {
    PartnersAreMembers(members);
    var i :| 0 <= i < |members| && members[i] == m;
    if m.id in PartnerIds(members) {
      var j :| 0 <= j < |members| && members[j].id == m.id && IsPartner()(members[j]);
      SameMember(members, m, members[j]);
    }
    if k :| 0 <= k < |weights| && weights[k].id == m.id { assert weights[k] in weights; }
  }
}
