/** The statistics of `server/src/controllers/analyticsController.js`, as
    folds over the violation collection: the count and the three fine sums
    of `getStats`, and the group-by-type count joined against the types
    collection of `getViolationsByType`. Both only read the collection. */
module Analytics {
  import opened Common
  import opened ViolationSchema

  /** `$sum: '$fine_amount'`. */
  function TotalFines(vs: seq<Violation>): int
  {
    if vs == [] then 0 else vs[0].fineAmount + TotalFines(vs[1..])
  }

  /** `$sum` of `$cond: [{ $eq: ['$status', 'paid'] }, '$fine_amount', 0]`. */
  function CollectedFines(vs: seq<Violation>): int
  {
    if vs == [] then 0
    else (if vs[0].status == Paid then vs[0].fineAmount else 0) + CollectedFines(vs[1..])
  }

  /** `$sum` of `$cond: [{ $ne: ['$status', 'paid'] }, '$fine_amount', 0]`. */
  function PendingFines(vs: seq<Violation>): int
  {
    if vs == [] then 0
    else (if vs[0].status != Paid then vs[0].fineAmount else 0) + PendingFines(vs[1..])
  }

  /** Paid and not-paid split the collection: the two sums add up to the total. */
  lemma {:induction false} FinesPartition(vs: seq<Violation>)
    ensures CollectedFines(vs) + PendingFines(vs) == TotalFines(vs)
  {
    if vs != [] {
      FinesPartition(vs[1..]);
    }
  }

  /** The violations in a given status group. */
  function WithStatus(vs: seq<Violation>, paid: bool): (r: seq<Violation>)
    ensures forall v :: v in r <==> v in vs && (v.status == Paid) == paid
  {
    if vs == [] then []
    else if (vs[0].status == Paid) == paid then [vs[0]] + WithStatus(vs[1..], paid)
    else WithStatus(vs[1..], paid)
  }

  /** The collected sum is the total over the paid violations, and the
      pending sum the total over all others (unpaid and disputed alike). */
  lemma {:induction false} SumsOverStatusGroups(vs: seq<Violation>)
    ensures CollectedFines(vs) == TotalFines(WithStatus(vs, true))
    ensures PendingFines(vs) == TotalFines(WithStatus(vs, false))
  {
    if vs != [] {
      SumsOverStatusGroups(vs[1..]);
      var p, q := WithStatus(vs[1..], true), WithStatus(vs[1..], false);
      assert ([vs[0]] + p)[1..] == p;
      assert ([vs[0]] + q)[1..] == q;
    }
  }

  datatype Stats = Stats(totalViolations: nat, totalFines: int, collectedFines: int, pendingFines: int)

  /** `getStats`. On an empty collection the aggregation yields no group and
      the zero defaults are used. */
  function GetStats(vs: seq<Violation>): (s: Stats)
    ensures s.totalViolations == |vs|
    ensures s.totalFines == TotalFines(vs)
    ensures s.collectedFines == TotalFines(WithStatus(vs, true))
    ensures s.pendingFines == TotalFines(WithStatus(vs, false))
    ensures s.collectedFines + s.pendingFines == s.totalFines
    ensures vs == [] ==> s == Stats(0, 0, 0, 0)
  {
    FinesPartition(vs);
    SumsOverStatusGroups(vs);
    if vs == [] then Stats(0, 0, 0, 0)
    else Stats(|vs|, TotalFines(vs), CollectedFines(vs), PendingFines(vs))
  }

  /** The stats after a new unpaid violation is appended: one more violation,
      its fine added to the total and to the pending sum. */
  lemma {:induction false} StatsAfterAppend(vs: seq<Violation>, v: Violation)
    requires v.status == Unpaid
    ensures var s, t := GetStats(vs), GetStats(vs + [v]);
      t.totalViolations == s.totalViolations + 1
      && t.totalFines == s.totalFines + v.fineAmount
      && t.collectedFines == s.collectedFines
      && t.pendingFines == s.pendingFines + v.fineAmount
  {
    SumsAppend(vs, v);
  }

  lemma {:induction false} SumsAppend(vs: seq<Violation>, v: Violation)
    ensures TotalFines(vs + [v]) == TotalFines(vs) + v.fineAmount
    ensures CollectedFines(vs + [v]) == CollectedFines(vs) + (if v.status == Paid then v.fineAmount else 0)
    ensures PendingFines(vs + [v]) == PendingFines(vs) + (if v.status != Paid then v.fineAmount else 0)
  {
    if vs == [] {
      assert vs + [v] == [v];
    } else {
      assert (vs + [v])[1..] == vs[1..] + [v];
      SumsAppend(vs[1..], v);
    }
  }

  /** Settling the not-paid violation at position `i` moves its fine from the
      pending sum to the collected sum and leaves the total alone. */
  lemma {:induction false} StatsAfterSettle(vs: seq<Violation>, i: nat, paid: Violation)
    requires i < |vs| && vs[i].status != Paid
    requires paid.status == Paid && paid.fineAmount == vs[i].fineAmount
    ensures var s, t := GetStats(vs), GetStats(vs[i := paid]);
      t.totalViolations == s.totalViolations
      && t.totalFines == s.totalFines
      && t.collectedFines == s.collectedFines + paid.fineAmount
      && t.pendingFines == s.pendingFines - paid.fineAmount
  {
    if i == 0 {
      assert vs[i := paid][1..] == vs[1..];
    } else {
      assert vs[i := paid][1..] == vs[1..][i - 1 := paid];
      StatsAfterSettle(vs[1..], i - 1, paid);
    }
  }

  /** One `$group` bucket: a type id and the number of violations with it. */
  datatype Group = Group(typeId: Id, count: nat)

  /** The number of violations whose type is `t`. */
  function CountOfType(vs: seq<Violation>, t: Id): (n: nat)
    ensures n <= |vs|
  {
    if vs == [] then 0
    else (if vs[|vs| - 1].violationType == t then 1 else 0) + CountOfType(vs[..|vs| - 1], t)
  }

  /** The bucket count of `t`, 0 when there is no bucket for it. */
  function CountIn(gs: seq<Group>, t: Id): nat
  {
    if gs == [] then 0
    else if gs[0].typeId == t then gs[0].count
    else CountIn(gs[1..], t)
  }

  function SumCounts(gs: seq<Group>): nat
  {
    if gs == [] then 0 else gs[0].count + SumCounts(gs[1..])
  }

  /** The bucket keys, in bucket order. */
  function Keys(gs: seq<Group>): (ks: seq<Id>)
    ensures |ks| == |gs|
    ensures forall i :: 0 <= i < |gs| ==> ks[i] == gs[i].typeId
  {
    if gs == [] then [] else [gs[0].typeId] + Keys(gs[1..])
  }

  ghost predicate DistinctKeys(gs: seq<Group>)
  {
    forall i, j :: 0 <= i < j < |gs| ==> gs[i].typeId != gs[j].typeId
  }

  ghost predicate Positive(gs: seq<Group>)
  {
    forall i :: 0 <= i < |gs| ==> gs[i].count > 0
  }

  /** Counts one more violation of type `t`: its bucket grows by one, or a
      bucket of one is opened at the end. */
  function AddToGroups(gs: seq<Group>, t: Id): (r: seq<Group>)
    ensures SumCounts(r) == SumCounts(gs) + 1
    ensures Keys(r) == if t in Keys(gs) then Keys(gs) else Keys(gs) + [t]
  {
    if gs == [] then [Group(t, 1)]
    else if gs[0].typeId == t then
      var r := [Group(t, gs[0].count + 1)] + gs[1..];
      assert r[1..] == gs[1..];
      r
    else
      var r := [gs[0]] + AddToGroups(gs[1..], t);
      assert r[1..] == AddToGroups(gs[1..], t);
      assert Keys(gs) == [gs[0].typeId] + Keys(gs[1..]);
      r
  }

  lemma {:induction false} AddToGroupsPositive(gs: seq<Group>, t: Id)
    requires Positive(gs)
    ensures Positive(AddToGroups(gs, t))
  {
    if gs != [] && gs[0].typeId != t {
      AddToGroupsPositive(gs[1..], t);
      var r := AddToGroups(gs, t);
      assert r[1..] == AddToGroups(gs[1..], t);
    }
  }

  lemma AddToGroupsDistinct(gs: seq<Group>, t: Id)
    requires DistinctKeys(gs)
    ensures DistinctKeys(AddToGroups(gs, t))
  {
    var r := AddToGroups(gs, t);
    forall i, j | 0 <= i < j < |r| ensures r[i].typeId != r[j].typeId {
      assert Keys(r)[i] == r[i].typeId && Keys(r)[j] == r[j].typeId;
      if t !in Keys(gs) && j == |gs| {
        assert Keys(gs)[i] == Keys(r)[i];
      } else {
        assert Keys(gs)[i] == gs[i].typeId && Keys(gs)[j] == gs[j].typeId;
      }
    }
  }

  lemma {:induction false} AddToGroupsCount(gs: seq<Group>, t: Id, u: Id)
    ensures CountIn(AddToGroups(gs, t), u) == CountIn(gs, u) + (if u == t then 1 else 0)
  {
    if gs != [] && gs[0].typeId != t {
      AddToGroupsCount(gs[1..], t, u);
    }
  }

  /** `$group: { _id: '$violation_type', count: { $sum: 1 } }`, buckets in
      order of first appearance: one bucket per type that occurs, and
      together the buckets count every violation once. */
  function GroupByType(vs: seq<Violation>): (gs: seq<Group>)
    ensures Positive(gs) && DistinctKeys(gs)
    ensures SumCounts(gs) == |vs|
  {
    if vs == [] then []
    else
      var prev := GroupByType(vs[..|vs| - 1]);
      AddToGroupsPositive(prev, vs[|vs| - 1].violationType);
      AddToGroupsDistinct(prev, vs[|vs| - 1].violationType);
      AddToGroups(prev, vs[|vs| - 1].violationType)
  }

  /** Each bucket's count is the number of violations of its type. */
  lemma {:induction false} GroupByTypeCounts(vs: seq<Violation>, t: Id)
    ensures CountIn(GroupByType(vs), t) == CountOfType(vs, t)
  {
    if vs != [] {
      GroupByTypeCounts(vs[..|vs| - 1], t);
      AddToGroupsCount(GroupByType(vs[..|vs| - 1]), vs[|vs| - 1].violationType, t);
    }
  }

  lemma {:induction false} CountInMember(gs: seq<Group>, i: nat)
    requires DistinctKeys(gs) && i < |gs|
    ensures CountIn(gs, gs[i].typeId) == gs[i].count
  {
    if i > 0 {
      assert gs[0].typeId != gs[i].typeId;
      CountInMember(gs[1..], i - 1);
    }
  }

  lemma {:induction false} CountInAbsent(gs: seq<Group>, t: Id)
    requires t !in Keys(gs)
    ensures CountIn(gs, t) == 0
  {
    if gs != [] {
      assert Keys(gs) == [gs[0].typeId] + Keys(gs[1..]);
      CountInAbsent(gs[1..], t);
    }
  }

  /** A bucket exists exactly for the types that occur in the collection. */
  lemma GroupByTypeBuckets(vs: seq<Violation>, t: Id)
    ensures t in Keys(GroupByType(vs)) <==> CountOfType(vs, t) > 0
  {
    var gs := GroupByType(vs);
    GroupByTypeCounts(vs, t);
    if t in Keys(gs) {
      var i :| 0 <= i < |gs| && Keys(gs)[i] == t;
      CountInMember(gs, i);
    } else {
      CountInAbsent(gs, t);
    }
  }

  /** One row of the by-type reply. */
  datatype TypeCount = TypeCount(typeId: Id, typeName: string, count: nat)

  /** The `$lookup` of a type id in the types collection. */
  function FindType(types: seq<ViolationType>, id: Id): Option<nat>
  {
    Find(types, (t: ViolationType) => t.id, id)
  }

  /** `$lookup` then `$unwind`: a bucket whose type id matches no type is
      dropped; the others take the type's name. */
  function Join(gs: seq<Group>, types: seq<ViolationType>): (r: seq<TypeCount>)
    ensures |r| <= |gs|
  {
    if gs == [] then []
    else match FindType(types, gs[0].typeId)
      case None => Join(gs[1..], types)
      case Some(k) => [TypeCount(gs[0].typeId, types[k].typeName, gs[0].count)] + Join(gs[1..], types)
  }

  /** Every joined row comes from a bucket whose type resolves, and carries
      that bucket's count and the type's name. */
  lemma {:induction false} JoinRow(gs: seq<Group>, types: seq<ViolationType>, n: nat)
    requires n < |Join(gs, types)|
    ensures var e := Join(gs, types)[n];
      && FindType(types, e.typeId).Some? && types[FindType(types, e.typeId).value].typeName == e.typeName
      && exists i :: 0 <= i < |gs| && gs[i].typeId == e.typeId && gs[i].count == e.count
  {
    var e := Join(gs, types)[n];
    if FindType(types, gs[0].typeId).Some? && n == 0 {
      assert gs[0].typeId == e.typeId;
    } else {
      var n' := if FindType(types, gs[0].typeId).Some? then n - 1 else n;
      assert Join(gs[1..], types)[n'] == e;
      JoinRow(gs[1..], types, n');
      var i :| 0 <= i < |gs[1..]| && gs[1..][i].typeId == e.typeId && gs[1..][i].count == e.count;
      assert gs[i + 1] == gs[1..][i];
    }
  }

  /** Every bucket whose type resolves yields a row. */
  lemma {:induction false} JoinKeeps(gs: seq<Group>, types: seq<ViolationType>, i: nat)
    requires i < |gs| && FindType(types, gs[i].typeId).Some?
    ensures exists n :: 0 <= n < |Join(gs, types)| && Join(gs, types)[n].typeId == gs[i].typeId
  {
    if i == 0 {
      assert Join(gs, types)[0].typeId == gs[0].typeId;
    } else {
      JoinKeeps(gs[1..], types, i - 1);
      var n :| 0 <= n < |Join(gs[1..], types)| && Join(gs[1..], types)[n].typeId == gs[i].typeId;
      if FindType(types, gs[0].typeId).Some? {
        assert Join(gs, types)[n + 1] == Join(gs[1..], types)[n];
      } else {
        assert Join(gs, types) == Join(gs[1..], types);
      }
    }
  }

  /** The join keeps distinct bucket keys distinct: no two rows share a type. */
  lemma {:induction false} JoinDistinct(gs: seq<Group>, types: seq<ViolationType>)
    requires DistinctKeys(gs)
    ensures forall m, n :: 0 <= m < n < |Join(gs, types)| ==> Join(gs, types)[m].typeId != Join(gs, types)[n].typeId
  {
    if gs != [] {
      var rest := Join(gs[1..], types);
      JoinDistinct(gs[1..], types);
      if FindType(types, gs[0].typeId).Some? {
        forall n | 0 <= n < |rest| ensures rest[n].typeId != gs[0].typeId {
          JoinRow(gs[1..], types, n);
          var i :| 0 <= i < |gs[1..]| && gs[1..][i].typeId == rest[n].typeId && gs[1..][i].count == rest[n].count;
          assert gs[i + 1] == gs[1..][i];
        }
        var r := Join(gs, types);
        assert r[1..] == rest && r[0].typeId == gs[0].typeId;
        forall m, n | 0 <= m < n < |r| ensures r[m].typeId != r[n].typeId {
          assert r[n] == rest[n - 1];
          if m > 0 {
            assert r[m] == rest[m - 1];
          }
        }
      } else {
        assert Join(gs, types) == rest;
      }
    }
  }

  function SumRows(rows: seq<TypeCount>): nat
  {
    if rows == [] then 0 else rows[0].count + SumRows(rows[1..])
  }

  lemma {:induction false} JoinSum(gs: seq<Group>, types: seq<ViolationType>)
    ensures SumRows(Join(gs, types)) <= SumCounts(gs)
    ensures (forall i :: 0 <= i < |gs| ==> FindType(types, gs[i].typeId).Some?) ==>
      SumRows(Join(gs, types)) == SumCounts(gs)
  {
    if gs != [] {
      JoinSum(gs[1..], types);
      if forall i :: 0 <= i < |gs| ==> FindType(types, gs[i].typeId).Some? {
        assert forall i :: 0 <= i < |gs[1..]| ==> gs[1..][i] == gs[i + 1];
      }
    }
  }

  /** `getViolationsByType` over the collection `vs` and the types `types`. */
  function GetViolationsByType(vs: seq<Violation>, types: seq<ViolationType>): seq<TypeCount>
  {
    Join(GroupByType(vs), types)
  }

  /** Every row names a type that exists and carries the number of
      violations of that type, which is positive. */
  lemma ByTypeRowsAreCounts(vs: seq<Violation>, types: seq<ViolationType>, n: nat)
    requires n < |GetViolationsByType(vs, types)|
    ensures var e := GetViolationsByType(vs, types)[n];
      e.count == CountOfType(vs, e.typeId) && e.count > 0
      && FindType(types, e.typeId).Some? && types[FindType(types, e.typeId).value].typeName == e.typeName
  {
    var gs := GroupByType(vs);
    var e := Join(gs, types)[n];
    JoinRow(gs, types, n);
    var i :| 0 <= i < |gs| && gs[i].typeId == e.typeId && gs[i].count == e.count;
    CountInMember(gs, i);
    GroupByTypeCounts(vs, e.typeId);
  }

  /** Every existing type that occurs in the collection has a row; a type
      with no violations has none. */
  lemma ByTypeRowsAreComplete(vs: seq<Violation>, types: seq<ViolationType>, t: Id)
    ensures (exists n :: 0 <= n < |GetViolationsByType(vs, types)| && GetViolationsByType(vs, types)[n].typeId == t)
      <==> CountOfType(vs, t) > 0 && FindType(types, t).Some?
  {
    var gs := GroupByType(vs);
    assert GetViolationsByType(vs, types) == Join(gs, types);
    GroupByTypeBuckets(vs, t);
    if CountOfType(vs, t) > 0 && FindType(types, t).Some? {
      var i :| 0 <= i < |gs| && Keys(gs)[i] == t;
      JoinKeeps(gs, types, i);
    }
    if exists n :: 0 <= n < |Join(gs, types)| && Join(gs, types)[n].typeId == t {
      var n :| 0 <= n < |Join(gs, types)| && Join(gs, types)[n].typeId == t;
      JoinRow(gs, types, n);
      var i :| 0 <= i < |gs| && gs[i].typeId == t && gs[i].count == Join(gs, types)[n].count;
      assert Keys(gs)[i] == t;
      assert t in Keys(gs);
      assert FindType(types, t).Some?;
    }
  }

  /** Each type has at most one row. */
  lemma ByTypeRowsDistinct(vs: seq<Violation>, types: seq<ViolationType>)
    ensures var rows := GetViolationsByType(vs, types);
      forall m, n :: 0 <= m < n < |rows| ==> rows[m].typeId != rows[n].typeId
  {
    JoinDistinct(GroupByType(vs), types);
  }

  /** The counts of the reply add up to at most the number of violations,
      and to exactly that when every violation's type resolves. */
  lemma ByTypeTotal(vs: seq<Violation>, types: seq<ViolationType>)
    ensures SumRows(GetViolationsByType(vs, types)) <= |vs|
    ensures (forall k :: 0 <= k < |vs| ==> FindType(types, vs[k].violationType).Some?) ==>
      SumRows(GetViolationsByType(vs, types)) == |vs|
  {
    var gs := GroupByType(vs);
    JoinSum(gs, types);
    if forall k :: 0 <= k < |vs| ==> FindType(types, vs[k].violationType).Some? {
      forall i | 0 <= i < |gs| ensures FindType(types, gs[i].typeId).Some? {
        assert Keys(gs)[i] == gs[i].typeId;
        GroupByTypeBuckets(vs, gs[i].typeId);
        CountOfTypeWitness(vs, gs[i].typeId);
      }
    }
  }

  lemma {:induction false} CountOfTypeWitness(vs: seq<Violation>, t: Id)
    requires CountOfType(vs, t) > 0
    ensures exists k :: 0 <= k < |vs| && vs[k].violationType == t
  {
    if vs[|vs| - 1].violationType != t {
      CountOfTypeWitness(vs[..|vs| - 1], t);
      var k :| 0 <= k < |vs| - 1 && vs[..|vs| - 1][k].violationType == t;
      assert vs[k].violationType == t;
    }
  }
}
