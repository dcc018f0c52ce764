/** The violation record of `server/src/models/Violation.js`: its fields,
    the status enumeration, the defaults and the required-field checks that
    `Violation.create` and `save` run, plus the two lookup records
    (violation types and areas) that a violation points into. */
module ViolationSchema {
  import opened Common

  /** The `status` enumeration. */
  datatype Status = Unpaid | Paid | Disputed

  function StatusName(s: Status): string
  {
    match s
    case Unpaid => "unpaid"
    case Paid => "paid"
    case Disputed => "disputed"
  }

  /** Enum validation of a status string: only the three names are accepted. */
  function ParseStatus(name: string): (r: Option<Status>)
    ensures r.Some? <==> name == "unpaid" || name == "paid" || name == "disputed"
    ensures r.Some? ==> StatusName(r.value) == name
  {
    if name == "unpaid" then Some(Unpaid)
    else if name == "paid" then Some(Paid)
    else if name == "disputed" then Some(Disputed)
    else None
  }

  lemma StatusNameRoundTrip(s: Status)
    ensures ParseStatus(StatusName(s)) == Some(s)
  {
  }

  /** A stored violation. `user` is the optional owning account (null when
      absent); `createdAt`/`updatedAt` are the schema's timestamps. */
  datatype Violation = Violation(
    id: Id,
    vehicleNumber: string,
    ownerName: string,
    user: Option<Id>,
    violationType: Id,
    area: Id,
    officer: Id,
    violationDate: Time,
    fineAmount: int,
    status: Status,
    notes: Option<string>,
    createdAt: Time,
    updatedAt: Time)

  /** What the schema guarantees of every document it accepted: the two
      required string paths are non-empty (the other required paths are
      present by the types of the fields). */
  predicate SchemaValid(v: Violation)
  {
    v.vehicleNumber != "" && v.ownerName != ""
  }

  /** The object handed to `Violation.create`: every path may be absent. */
  datatype Draft = Draft(
    vehicleNumber: Option<string>,
    ownerName: Option<string>,
    user: Option<Id>,
    violationType: Option<Id>,
    area: Option<Id>,
    officer: Option<Id>,
    violationDate: Option<Time>,
    fineAmount: Option<int>,
    status: Option<string>,
    notes: Option<string>)

  /** The `required: true` paths are all present (a required string must
      also be non-empty) and a status, when given, is one of the enum. */
  predicate Acceptable(d: Draft)
  {
    && Truthy(d.vehicleNumber) && Truthy(d.ownerName)
    && d.violationType.Some? && d.area.Some? && d.officer.Some?
    && d.fineAmount.Some?
    && (d.status.Some? ==> ParseStatus(d.status.value).Some?)
  }

  /** The validated paths, in schema order. */
  const SchemaPaths: seq<string> :=
    ["vehicle_number", "owner_name", "violation_type", "area", "officer", "fine_amount", "status"]

  /** For each path of `SchemaPaths`, whether its check fails. */
  function Failures(d: Draft): (fs: seq<bool>)
    ensures |fs| == |SchemaPaths|
  {
    [ !Truthy(d.vehicleNumber), !Truthy(d.ownerName), d.violationType.None?, d.area.None?,
      d.officer.None?, d.fineAmount.None?, d.status.Some? && ParseStatus(d.status.value).None? ]
  }

  /** The paths whose flag is set, in order. */
  function Select(ps: seq<string>, fs: seq<bool>): (r: seq<string>)
    requires |ps| == |fs|
  {
    if ps == [] then [] else (if fs[0] then [ps[0]] else []) + Select(ps[1..], fs[1..])
  }

  /** Among distinct paths, a path is selected exactly when its flag is set. */
  lemma {:induction false} SelectIn(ps: seq<string>, fs: seq<bool>, p: string)
    requires |ps| == |fs|
    requires forall i, j :: 0 <= i < j < |ps| ==> ps[i] != ps[j]
    ensures p in Select(ps, fs) <==> exists k :: 0 <= k < |ps| && ps[k] == p && fs[k]
  {
    if ps != [] {
      SelectIn(ps[1..], fs[1..], p);
      if exists k :: 0 <= k < |ps| && ps[k] == p && fs[k] {
        var k :| 0 <= k < |ps| && ps[k] == p && fs[k];
        if k > 0 {
          assert ps[1..][k - 1] == p && fs[1..][k - 1];
        }
      }
      if p in Select(ps[1..], fs[1..]) {
        var k :| 0 <= k < |ps[1..]| && ps[1..][k] == p && fs[1..][k];
        assert ps[k + 1] == p && fs[k + 1];
      }
    }
  }

  lemma SchemaPathsDistinct()
    ensures forall i, j :: 0 <= i < j < |SchemaPaths| ==> SchemaPaths[i] != SchemaPaths[j]
  {
    assert "vehicle_number"[1] != "violation_type"[1];
  }

  /** The paths that fail validation, in schema order. */
  function FailedPaths(d: Draft): seq<string>
  {
    Select(SchemaPaths, Failures(d))
  }

  /** A path is reported exactly when its own check fails, only schema
      paths are reported, and nothing is reported exactly for an
      acceptable draft. */
  lemma FailedPathsNames(d: Draft)
    ensures forall k :: 0 <= k < |SchemaPaths| ==> (SchemaPaths[k] in FailedPaths(d) <==> Failures(d)[k])
    ensures forall p :: p in FailedPaths(d) ==> p in SchemaPaths
    ensures FailedPaths(d) == [] <==> Acceptable(d)
  {
    SchemaPathsDistinct();
    forall p {
      SelectIn(SchemaPaths, Failures(d), p);
    }
    var fs := Failures(d);
    assert Acceptable(d) <==> !fs[0] && !fs[1] && !fs[2] && !fs[3] && !fs[4] && !fs[5] && !fs[6];
    if FailedPaths(d) != [] {
      assert FailedPaths(d)[0] in FailedPaths(d);
      var k :| 0 <= k < |SchemaPaths| && SchemaPaths[k] == FailedPaths(d)[0];
      assert fs[k];
    } else {
      forall k | 0 <= k < |SchemaPaths| ensures !fs[k] {
        assert SchemaPaths[k] !in FailedPaths(d);
      }
    }
  }

  /** `Violation.create(d)` with identifier `id` at time `now`: validation,
      then the defaults (`user` null, `violation_date` now, `status`
      unpaid) and the creation timestamps. */
  function Build(d: Draft, id: Id, now: Time): (r: Result<Violation, seq<string>>)
    ensures r.Ok? <==> Acceptable(d)
    ensures r.Err? ==> |r.error| > 0
    ensures r.Err? ==> forall k :: 0 <= k < |SchemaPaths| ==> (SchemaPaths[k] in r.error <==> Failures(d)[k])
    ensures r.Err? ==> forall p :: p in r.error ==> p in SchemaPaths
    ensures r.Err? ==> ("owner_name" in r.error <==> !Truthy(d.ownerName))
    ensures r.Err? ==> ("fine_amount" in r.error <==> d.fineAmount.None?)
    ensures r.Ok? ==> SchemaValid(r.value) && r.value.id == id
    ensures r.Ok? ==> r.value.vehicleNumber == d.vehicleNumber.value && r.value.ownerName == d.ownerName.value
    ensures r.Ok? ==> r.value.violationType == d.violationType.value && r.value.area == d.area.value
    ensures r.Ok? ==> r.value.user == d.user && r.value.officer == d.officer.value
    ensures r.Ok? ==> r.value.fineAmount == d.fineAmount.value && r.value.notes == d.notes
    ensures r.Ok? ==> r.value.status == (if d.status.Some? then ParseStatus(d.status.value).value else Unpaid)
    ensures r.Ok? ==> StatusName(r.value.status) == (if d.status.Some? then d.status.value else "unpaid")
    ensures r.Ok? ==> r.value.violationDate == (if d.violationDate.Some? then d.violationDate.value else now)
    ensures r.Ok? ==> r.value.createdAt == now && r.value.updatedAt == now
  {
    FailedPathsNames(d);
    assert SchemaPaths[1] == "owner_name" && SchemaPaths[5] == "fine_amount";
    var failed := FailedPaths(d);
    if failed != [] then Err(failed)
    else
      Ok(Violation(
        id, d.vehicleNumber.value, d.ownerName.value, d.user,
        d.violationType.value, d.area.value, d.officer.value,
        if d.violationDate.Some? then d.violationDate.value else now,
        d.fineAmount.value,
        if d.status.Some? then ParseStatus(d.status.value).value else Unpaid,
        d.notes, now, now))
  }

  /** A lookup record of `server/src/models/ViolationType.js`. */
  datatype ViolationType = ViolationType(id: Id, typeName: string, baseFine: int)

  /** A lookup record of `server/src/models/Area.js`. */
  datatype Area = Area(id: Id, areaName: string, city: string)
}
