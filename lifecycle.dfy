/** Properties that tie the lifecycle operations of the violation controller
    to the statistics and to the role-scoped listing. */
module Lifecycle {
  import opened Common
  import opened Identity
  import opened ViolationSchema
  import opened Store
  import opened ViolationController
  import opened Analytics

  /** A successful create adds one violation whose fine counts as pending;
      a failed one leaves the statistics as they were. */
  lemma CreateUpdatesStats(users: seq<User>, vs: seq<Violation>, nextId: nat, caller: Id,
                           req: CreateRequest, password: string, suffix: nat, now: Time)
    ensures var c := Create(users, vs, nextId, caller, req, password, suffix, now);
      var s, t := GetStats(vs), GetStats(c.violations);
      (c.reply.Err? ==> t == s)
      && (c.reply.Ok? ==>
            t.totalViolations == s.totalViolations + 1
            && t.totalFines == s.totalFines + req.fineAmount.value
            && t.collectedFines == s.collectedFines
            && t.pendingFines == s.pendingFines + req.fineAmount.value)
  {
    var c := Create(users, vs, nextId, caller, req, password, suffix, now);
    CreateStoresViolation(users, vs, nextId, caller, req, password, suffix, now);
    if c.reply.Ok? {
      StatsAfterAppend(vs, c.reply.value.violation);
    }
  }

  /** Paying moves the violation's fine from pending to collected; a
      refused payment leaves the statistics as they were. */
  lemma PayUpdatesStats(vs: seq<Violation>, bound: nat, id: Id, now: Time)
    requires ViolationsBelow(vs, bound)
    ensures var p := Pay(vs, id, now);
      var s, t := GetStats(vs), GetStats(p.violations);
      (p.reply.Err? ==> t == s)
      && (p.reply.Ok? ==>
            t.totalViolations == s.totalViolations && t.totalFines == s.totalFines
            && t.collectedFines == s.collectedFines + p.reply.value.fineAmount
            && t.pendingFines == s.pendingFines - p.reply.value.fineAmount)
  {
    var p := Pay(vs, id, now);
    if p.reply.Ok? {
      var i := FindViolation(vs, id).value;
      PaySettles(vs, bound, i, now);
      StatsAfterSettle(vs, i, p.reply.value);
    }
  }

  /** The number of disputed violations. */
  function DisputedCount(vs: seq<Violation>): (n: nat)
    ensures n <= |vs|
  {
    if vs == [] then 0 else (if vs[0].status == Disputed then 1 else 0) + DisputedCount(vs[1..])
  }

  lemma {:induction false} DisputedCountAppend(vs: seq<Violation>, v: Violation)
    ensures DisputedCount(vs + [v]) == DisputedCount(vs) + (if v.status == Disputed then 1 else 0)
  {
    if vs == [] {
      assert vs + [v] == [v];
    } else {
      assert (vs + [v])[1..] == vs[1..] + [v];
      DisputedCountAppend(vs[1..], v);
    }
  }

  lemma {:induction false} DisputedCountUpdate(vs: seq<Violation>, i: nat, v: Violation)
    requires i < |vs| && v.status != Disputed
    ensures DisputedCount(vs[i := v]) == DisputedCount(vs) - (if vs[i].status == Disputed then 1 else 0)
  {
    if i == 0 {
      assert vs[i := v][1..] == vs[1..];
    } else {
      assert vs[i := v][1..] == vs[1..][i - 1 := v];
      DisputedCountUpdate(vs[1..], i - 1, v);
    }
  }

  /** No operation of the controller puts a violation into `disputed`:
      creating never adds one and paying can only take one out. */
  lemma NothingBecomesDisputed(users: seq<User>, vs: seq<Violation>, nextId: nat, caller: Id,
                               req: CreateRequest, password: string, suffix: nat, now: Time, id: Id)
    ensures DisputedCount(Create(users, vs, nextId, caller, req, password, suffix, now).violations) == DisputedCount(vs)
    ensures DisputedCount(Pay(vs, id, now).violations) <= DisputedCount(vs)
  {
    var c := Create(users, vs, nextId, caller, req, password, suffix, now);
    CreateStoresViolation(users, vs, nextId, caller, req, password, suffix, now);
    if c.reply.Ok? {
      DisputedCountAppend(vs, c.reply.value.violation);
    }
    var p := Pay(vs, id, now);
    if p.reply.Ok? {
      var i := FindViolation(vs, id).value;
      DisputedCountUpdate(vs, i, p.reply.value);
    }
  }

  /** The owner of a newly created violation sees it when listing as the
      citizen account it was linked to. */
  lemma OwnerSeesNewViolation(users: seq<User>, vs: seq<Violation>, nextId: nat, caller: Id,
                              req: CreateRequest, password: string, suffix: nat, now: Time)
    requires Create(users, vs, nextId, caller, req, password, suffix, now).reply.Ok?
    ensures var c := Create(users, vs, nextId, caller, req, password, suffix, now);
      var v := c.reply.value.violation;
      v.user.Some? && v in GetViolations(c.violations, Principal(v.user.value, Citizen))
  {
    CreateStoresViolation(users, vs, nextId, caller, req, password, suffix, now);
  }
}
