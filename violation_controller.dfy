/** The citation lifecycle of `server/src/controllers/violationController.js`:
    creating a violation (with find-or-create of the owner's citizen
    account), the role-scoped listing, and the transition to `paid`. The
    random password and username suffix of a new account, and the clock,
    are parameters. */
module ViolationController {
  import opened Common
  import opened Text
  import opened Identity
  import opened ViolationSchema
  import opened Store

  const EmailDomain: string := "@traffic.com"

  /** The account key of an owner name: lower-cased, with every run of white
      space removed. */
  function CanonicalName(ownerName: string): (r: string)
    ensures forall c :: c in r ==> !IsSpace(c) && !IsUpper(c)
  {
    var lowered := Lower(ownerName);
    assert forall c :: c in lowered ==> !IsUpper(c);
    StripSpaces(lowered)
  }

  /** The e-mail address derived from an owner name. */
  function DeriveEmail(ownerName: string): string
  {
    CanonicalName(ownerName) + EmailDomain
  }

  /** The derived address always ends in the fixed domain, and the part
      before it holds no white space and no upper-case letter. */
  lemma DerivedEmailShape(ownerName: string)
    ensures var e := DeriveEmail(ownerName);
      |e| >= |EmailDomain| && e[|e| - |EmailDomain|..] == EmailDomain
      && forall k :: 0 <= k < |e| - |EmailDomain| ==> !IsSpace(e[k]) && !IsUpper(e[k])
  {
    var e := DeriveEmail(ownerName);
    var c := CanonicalName(ownerName);
    assert e[|e| - |EmailDomain|..] == EmailDomain;
    forall k | 0 <= k < |e| - |EmailDomain| ensures !IsSpace(e[k]) && !IsUpper(e[k]) {
      assert e[k] == c[k] && c[k] in c;
    }
  }

  /** Two owner names share an account exactly when their canonical forms agree. */
  lemma SameEmailIffSameCanonical(a: string, b: string)
    ensures DeriveEmail(a) == DeriveEmail(b) <==> CanonicalName(a) == CanonicalName(b)
  {
    if DeriveEmail(a) == DeriveEmail(b) {
      var ca, cb := CanonicalName(a), CanonicalName(b);
      assert |ca| == |cb|;
      assert ca == DeriveEmail(a)[..|ca|];
      assert cb == DeriveEmail(b)[..|cb|];
    }
  }

  /** Changing the case of one letter does not change the derived address. */
  lemma {:induction false} CaseDoesNotMatter(a: string, c: char, b: string)
    ensures DeriveEmail(a + [c] + b) == DeriveEmail(a + [LowerChar(c)] + b)
  {
    LowerAppend(a + [c], b);
    LowerAppend(a, [c]);
    LowerAppend(a + [LowerChar(c)], b);
    LowerAppend(a, [LowerChar(c)]);
    assert Lower([c]) == [LowerChar(c)] == Lower([LowerChar(c)]);
  }

  /** Inserting one white-space character does not change the derived address. */
  lemma {:induction false} SpacingDoesNotMatter(a: string, w: char, b: string)
    requires IsSpace(w)
    ensures DeriveEmail(a + [w] + b) == DeriveEmail(a + b)
  {
    var la, lw, lb := Lower(a), Lower([w]), Lower(b);
    LowerAppend(a, [w]);
    LowerAppend(a + [w], b);
    LowerAppend(a, b);
    assert lw == [LowerChar(w)];
    assert StripSpaces(lw) == [];
    StripAppend(la + lw, lb);
    StripAppend(la, lw);
    StripAppend(la, lb);
    calc {
      CanonicalName(a + [w] + b);
      StripSpaces(la + lw + lb);
      StripSpaces(la + lw) + StripSpaces(lb);
      StripSpaces(la) + [] + StripSpaces(lb);
      { assert StripSpaces(la) + [] == StripSpaces(la); }
      StripSpaces(la + lb);
      CanonicalName(a + b);
    }
  }

  lemma {:induction false} StripIdempotent(s: string)
    ensures StripSpaces(StripSpaces(s)) == StripSpaces(s)
  {
    if s != [] {
      StripIdempotent(s[1..]);
      if !IsSpace(s[0]) {
        assert ([s[0]] + StripSpaces(s[1..]))[1..] == StripSpaces(s[1..]);
      }
    }
  }

  lemma {:induction false} LowerIdempotent(s: string)
    ensures Lower(Lower(s)) == Lower(s)
  {
  }

  /** The canonical form of an owner name derives the same address as the
      name itself. */
  lemma CanonicalNameIsFixedPoint(ownerName: string)
    ensures CanonicalName(CanonicalName(ownerName)) == CanonicalName(ownerName)
    ensures DeriveEmail(CanonicalName(ownerName)) == DeriveEmail(ownerName)
  {
    var l := Lower(ownerName);
    LowerStripCommute(l);
    LowerIdempotent(ownerName);
    StripIdempotent(l);
  }

  /** An owner name made only of white space derives the bare domain, so all
      such names share one account. */
  lemma {:induction false} BlankNamesShareOneAccount(ownerName: string)
    requires forall k :: 0 <= k < |ownerName| ==> IsSpace(ownerName[k])
    ensures DeriveEmail(ownerName) == EmailDomain
  {
    if ownerName != [] {
      BlankNamesShareOneAccount(ownerName[1..]);
      assert Lower(ownerName)[1..] == Lower(ownerName[1..]);
    }
  }

  /** The username of an auto-created account: the part of the address
      before the first '@' followed by the random number `suffix`. */
  function Username(email: string, suffix: nat): (r: string)
    ensures |r| > |BeforeAt(email)| && r[..|BeforeAt(email)|] == BeforeAt(email)
  {
    BeforeAt(email) + Decimal(suffix)
  }

  lemma {:induction false} BeforeAtOfDerived(x: string)
    requires '@' !in x
    ensures BeforeAt(x + EmailDomain) == x
  {
    if x != [] {
      assert (x + EmailDomain)[1..] == x[1..] + EmailDomain;
      BeforeAtOfDerived(x[1..]);
    }
  }

  /** For an owner name without '@', the username starts with the whole
      canonical name. */
  lemma UsernameOfOwner(ownerName: string, suffix: nat)
    requires '@' !in ownerName
    ensures Username(DeriveEmail(ownerName), suffix) == CanonicalName(ownerName) + Decimal(suffix)
  {
    var l := Lower(ownerName);
    assert '@' !in l by {
      forall k | 0 <= k < |l| ensures l[k] != '@' {
        assert ownerName[k] in ownerName;
      }
    }
    BeforeAtOfDerived(CanonicalName(ownerName));
  }

  /** The one-time credentials returned for a new account. */
  datatype Credentials = Credentials(email: string, password: string)

  /** The user store after looking up (or creating) the owner's account, the
      account to link, and the credentials to return. */
  datatype Provisioned = Provisioned(users: seq<User>, nextId: nat, account: Option<Id>, credentials: Option<Credentials>)

  /** The find-or-create of the owner's citizen account. */
  function Provision(users: seq<User>, nextId: nat, ownerName: Option<string>, password: string, suffix: nat): Provisioned
  {
    if !Truthy(ownerName) then Provisioned(users, nextId, None, None)
    else
      var email := DeriveEmail(ownerName.value);
      match FindByEmail(users, email)
      case Some(i) => Provisioned(users, nextId, Some(users[i].id), None)
      case None =>
        var u := User(nextId, Username(email, suffix), ownerName.value, email, Hash(password), Citizen);
        Provisioned(users + [u], nextId + 1, Some(nextId), Some(Credentials(email, password)))
  }

  /** The body of `POST /api/violations`. It carries no status. */
  datatype CreateRequest = CreateRequest(
    vehicleNumber: Option<string>,
    ownerName: Option<string>,
    violationType: Option<Id>,
    area: Option<Id>,
    fineAmount: Option<int>,
    notes: Option<string>)

  /** A rejected insert: the schema paths that failed validation. */
  datatype CreateError = ValidationFailed(paths: seq<string>)

  /** The created violation together with `newUser`. */
  datatype CreateReply = CreateReply(violation: Violation, newUser: Option<Credentials>)

  datatype Creation = Creation(users: seq<User>, violations: seq<Violation>, nextId: nat,
                               reply: Result<CreateReply, CreateError>)

  /** The document handed to `Violation.create`. */
  function DraftOf(req: CreateRequest, caller: Id, account: Option<Id>): Draft
  {
    Draft(req.vehicleNumber, req.ownerName, account, req.violationType, req.area,
          Some(caller), None, req.fineAmount, None, req.notes)
  }

  /** `createViolation` by the officer `caller` against the stores
      `users` and `vs`. */
  function Create(users: seq<User>, vs: seq<Violation>, nextId: nat, caller: Id,
                  req: CreateRequest, password: string, suffix: nat, now: Time): Creation
  {
    var p := Provision(users, nextId, req.ownerName, password, suffix);
    match Build(DraftOf(req, caller, p.account), p.nextId, now)
    case Err(paths) => Creation(p.users, vs, p.nextId, Err(ValidationFailed(paths)))
    case Ok(v) => Creation(p.users, vs + [v], p.nextId + 1, Ok(CreateReply(v, p.credentials)))
  }

  /** An existing account with the derived address is reused: no account is
      created, no credentials are returned, and the violation is linked to it. */
  lemma CreateReusesAccount(users: seq<User>, vs: seq<Violation>, nextId: nat, caller: Id,
                            req: CreateRequest, password: string, suffix: nat, now: Time, i: nat)
    requires UniqueEmails(users) && Truthy(req.ownerName)
    requires i < |users| && users[i].email == DeriveEmail(req.ownerName.value)
    ensures var c := Create(users, vs, nextId, caller, req, password, suffix, now);
      c.users == users
      && (c.reply.Ok? ==> c.reply.value.newUser.None? && c.reply.value.violation.user == Some(users[i].id))
  {
  }

  /** Without an account for the derived address, exactly one citizen account
      is created (and kept even when the insert then fails); a successful
      reply carries its address and password. */
  lemma CreateProvisionsAccount(users: seq<User>, vs: seq<Violation>, nextId: nat, caller: Id,
                                req: CreateRequest, password: string, suffix: nat, now: Time)
    requires Truthy(req.ownerName)
    requires forall j :: 0 <= j < |users| ==> users[j].email != DeriveEmail(req.ownerName.value)
    ensures var c := Create(users, vs, nextId, caller, req, password, suffix, now);
      var email := DeriveEmail(req.ownerName.value);
      c.users == users + [User(nextId, Username(email, suffix), req.ownerName.value, email, Hash(password), Citizen)]
      && (c.reply.Ok? ==> c.reply.value.newUser == Some(Credentials(email, password))
                          && c.reply.value.violation.user == Some(nextId))
  {
  }

  /** With no owner name, no account is looked up or created and the insert
      fails on the required `owner_name`. */
  lemma CreateWithoutOwnerName(users: seq<User>, vs: seq<Violation>, nextId: nat, caller: Id,
                               req: CreateRequest, password: string, suffix: nat, now: Time)
    requires !Truthy(req.ownerName)
    ensures var c := Create(users, vs, nextId, caller, req, password, suffix, now);
      c.users == users && c.violations == vs && c.reply.Err? && "owner_name" in c.reply.error.paths
  {
  }

  /** A create succeeds exactly when the required fields are present; the
      stored violation is appended, linked to the caller, carries the
      request's fine verbatim and starts unpaid. Type and area are not looked up. */
  lemma CreateStoresViolation(users: seq<User>, vs: seq<Violation>, nextId: nat, caller: Id,
                              req: CreateRequest, password: string, suffix: nat, now: Time)
    ensures var c := Create(users, vs, nextId, caller, req, password, suffix, now);
      (c.reply.Ok? <==> Truthy(req.vehicleNumber) && Truthy(req.ownerName) && req.violationType.Some?
                        && req.area.Some? && req.fineAmount.Some?)
      && (c.reply.Err? ==> c.violations == vs)
      && (c.reply.Ok? ==>
            var v := c.reply.value.violation;
            c.violations == vs + [v] && v.officer == caller && v.fineAmount == req.fineAmount.value
            && v.violationType == req.violationType.value && v.area == req.area.value
            && v.ownerName == req.ownerName.value && v.vehicleNumber == req.vehicleNumber.value
            && v.status == Unpaid && v.violationDate == now && v.notes == req.notes)
  {
  }

  /** Creating a violation keeps the store invariant: identifiers stay
      unique, account e-mails stay unique, and the new record is schema-valid. */
  lemma CreateKeepsInvariant(users: seq<User>, vs: seq<Violation>, nextId: nat, caller: Id,
                             req: CreateRequest, password: string, suffix: nat, now: Time)
    requires StoreInvariant(users, vs, nextId)
    ensures var c := Create(users, vs, nextId, caller, req, password, suffix, now);
      StoreInvariant(c.users, c.violations, c.nextId)
  {
    var p := Provision(users, nextId, req.ownerName, password, suffix);
    ProvisionKeepsInvariant(users, vs, nextId, req.ownerName, password, suffix);
    match Build(DraftOf(req, caller, p.account), p.nextId, now)
    case Err(_) =>
    case Ok(v) =>
      ViolationsAppend(vs, v, p.nextId);
  }

  /** Finding or creating the owner's account keeps the store invariant and
      never lowers the identifier counter. */
  lemma ProvisionKeepsInvariant(users: seq<User>, vs: seq<Violation>, nextId: nat,
                                ownerName: Option<string>, password: string, suffix: nat)
    requires StoreInvariant(users, vs, nextId)
    ensures var p := Provision(users, nextId, ownerName, password, suffix);
      StoreInvariant(p.users, vs, p.nextId) && nextId <= p.nextId
  {
    var p := Provision(users, nextId, ownerName, password, suffix);
    if p.users != users {
      assert p.users == users + [p.users[|users|]];
    }
  }

  /** Appending a schema-valid violation with the next identifier keeps
      identifiers unique and below the advanced counter. */
  lemma ViolationsAppend(vs: seq<Violation>, v: Violation, bound: nat)
    requires ViolationsBelow(vs, bound) && v.id == bound && SchemaValid(v)
    ensures ViolationsBelow(vs + [v], bound + 1)
  {
  }

  /** A second violation for an owner whose name derives the same address
      reuses the account made or found by the first, with no new credentials. */
  lemma {:induction false} SecondCitationReusesAccount(users: seq<User>, vs: seq<Violation>, nextId: nat, caller: Id,
                                                       req1: CreateRequest, pw1: string, s1: nat, t1: Time,
                                                       req2: CreateRequest, pw2: string, s2: nat, t2: Time)
    requires StoreInvariant(users, vs, nextId)
    requires Truthy(req1.ownerName) && Truthy(req2.ownerName)
    requires DeriveEmail(req1.ownerName.value) == DeriveEmail(req2.ownerName.value)
    requires Create(users, vs, nextId, caller, req1, pw1, s1, t1).reply.Ok?
    ensures var c1 := Create(users, vs, nextId, caller, req1, pw1, s1, t1);
      var c2 := Create(c1.users, c1.violations, c1.nextId, caller, req2, pw2, s2, t2);
      c2.users == c1.users
      && (c2.reply.Ok? ==> c2.reply.value.newUser.None?
                           && c2.reply.value.violation.user == c1.reply.value.violation.user)
  {
    var c1 := Create(users, vs, nextId, caller, req1, pw1, s1, t1);
    var email := DeriveEmail(req1.ownerName.value);
    CreateKeepsInvariant(users, vs, nextId, caller, req1, pw1, s1, t1);
    match FindByEmail(users, email)
    case Some(i) =>
      CreateReusesAccount(c1.users, c1.violations, c1.nextId, caller, req2, pw2, s2, t2, i);
    case None =>
      CreateProvisionsAccount(users, vs, nextId, caller, req1, pw1, s1, t1);
      CreateReusesAccount(c1.users, c1.violations, c1.nextId, caller, req2, pw2, s2, t2, |users|);
  }

  /** `createViolation` on the database: the account (if any) is inserted
      first, then the violation; an insert that fails leaves the account. */
  method CreateViolation(db: Db, caller: Id, req: CreateRequest, password: string, suffix: nat, now: Time)
    returns (reply: Result<CreateReply, CreateError>)
    requires db.Valid() && suffix < 1000
    modifies db
    ensures db.Valid()
    ensures var c := Create(old(db.users), old(db.violations), old(db.nextId), caller, req, password, suffix, now);
      db.users == c.users && db.violations == c.violations && db.nextId == c.nextId && reply == c.reply
    ensures db.types == old(db.types) && db.areas == old(db.areas)
  {
    CreateKeepsInvariant(db.users, db.violations, db.nextId, caller, req, password, suffix, now);
    ghost var p := Provision(db.users, db.nextId, req.ownerName, password, suffix);
    var generated: Option<Credentials> := None;
    var account: Option<Id> := None;
    if Truthy(req.ownerName) {
      var email := DeriveEmail(req.ownerName.value);
      var found := FindByEmail(db.users, email);
      if found.None? {
        var user := User(db.nextId, Username(email, suffix), req.ownerName.value, email, Hash(password), Citizen);
        db.users := db.users + [user];
        db.nextId := db.nextId + 1;
        generated := Some(Credentials(email, password));
        account := Some(user.id);
      } else {
        account := Some(db.users[found.value].id);
      }
    }
    assert db.users == p.users && db.nextId == p.nextId && account == p.account && generated == p.credentials;
    var built := Build(DraftOf(req, caller, account), db.nextId, now);
    match built {
      case Err(paths) =>
        reply := Err(ValidationFailed(paths));
      case Ok(v) =>
        db.violations := db.violations + [v];
        db.nextId := db.nextId + 1;
        reply := Ok(CreateReply(v, generated));
    }
  }

  /** The caller attached by the authentication middleware. */
  datatype Principal = Principal(id: Id, role: Role)

  /** The violations linked to account `id`, in store order. */
  function OwnedBy(vs: seq<Violation>, id: Id): (r: seq<Violation>)
    ensures |r| <= |vs|
    ensures forall v :: v in r <==> v in vs && v.user == Some(id)
    ensures forall v :: multiset(r)[v] == if v.user == Some(id) then multiset(vs)[v] else 0
  {
    if vs == [] then []
    else
      assert vs == [vs[0]] + vs[1..];
      if vs[0].user == Some(id) then [vs[0]] + OwnedBy(vs[1..], id)
      else OwnedBy(vs[1..], id)
  }

  /** `getViolations`: a citizen sees exactly the violations linked to its
      account; an officer or admin sees every violation. */
  function GetViolations(vs: seq<Violation>, caller: Principal): (r: seq<Violation>)
    ensures caller.role == Citizen ==> forall v :: v in r <==> v in vs && v.user == Some(caller.id)
    ensures caller.role == Citizen ==>
      forall v :: multiset(r)[v] == if v.user == Some(caller.id) then multiset(vs)[v] else 0
    ensures caller.role != Citizen ==> r == vs
  {
    if caller.role == Citizen then OwnedBy(vs, caller.id) else vs
  }

  /** `Violation.findById(id)`: the position of the violation with that id. */
  function FindViolation(vs: seq<Violation>, id: Id): Option<nat>
  {
    Find(vs, (v: Violation) => v.id, id)
  }

  datatype PayError = NotFound | AlreadyPaid
  {
    function Message(): string
    {
      match this
      case NotFound => "Violation not found"
      case AlreadyPaid => "Violation is already paid"
    }
  }

  datatype Payment = Payment(violations: seq<Violation>, reply: Result<Violation, PayError>)

  /** `markViolationAsPaid(id)` at time `now`. Saving the document also
      refreshes its `updatedAt` timestamp. */
  function Pay(vs: seq<Violation>, id: Id, now: Time): (r: Payment)
    ensures r.reply.Err? ==> r.violations == vs
    ensures r.reply.Ok? ==> r.reply.value.id == id && r.reply.value.status == Paid
    ensures |r.violations| == |vs|
  {
    match FindViolation(vs, id)
    case None => Payment(vs, Err(NotFound))
    case Some(i) =>
      if vs[i].status == Paid then Payment(vs, Err(AlreadyPaid))
      else
        var paid := vs[i].(status := Paid, updatedAt := now);
        Payment(vs[i := paid], Ok(paid))
  }

  /** An unknown id fails with 'Violation not found' and changes nothing. */
  lemma PayUnknownId(vs: seq<Violation>, id: Id, now: Time)
    requires forall j :: 0 <= j < |vs| ==> vs[j].id != id
    ensures Pay(vs, id, now) == Payment(vs, Err(NotFound))
    ensures NotFound.Message() == "Violation not found"
  {
  }

  /** Paying an already-paid violation fails with 'Violation is already paid'
      and changes nothing. */
  lemma PayAlreadyPaid(vs: seq<Violation>, bound: nat, i: nat, now: Time)
    requires ViolationsBelow(vs, bound) && i < |vs| && vs[i].status == Paid
    ensures Pay(vs, vs[i].id, now) == Payment(vs, Err(AlreadyPaid))
    ensures AlreadyPaid.Message() == "Violation is already paid"
  {
  }

  /** Paying an unpaid or disputed violation sets its status to paid,
      refreshes `updatedAt`, and changes nothing else in the store. */
  lemma PaySettles(vs: seq<Violation>, bound: nat, i: nat, now: Time)
    requires ViolationsBelow(vs, bound) && i < |vs| && vs[i].status != Paid
    ensures var paid := vs[i].(status := Paid, updatedAt := now);
      Pay(vs, vs[i].id, now) == Payment(vs[i := paid], Ok(paid))
  {
  }

  /** Paying keeps the store invariant. */
  lemma PayKeepsInvariant(users: seq<User>, vs: seq<Violation>, nextId: nat, id: Id, now: Time)
    requires StoreInvariant(users, vs, nextId)
    ensures StoreInvariant(users, Pay(vs, id, now).violations, nextId)
  {
  }

  /** A second payment of the same violation fails and changes nothing. */
  lemma PayTwice(vs: seq<Violation>, bound: nat, id: Id, now: Time, later: Time)
    requires ViolationsBelow(vs, bound) && Pay(vs, id, now).reply.Ok?
    ensures var first := Pay(vs, id, now);
      Pay(first.violations, id, later) == Payment(first.violations, Err(AlreadyPaid))
  {
    var i := FindViolation(vs, id).value;
    PaySettles(vs, bound, i, now);
    var first := Pay(vs, id, now);
    assert ViolationsBelow(first.violations, bound);
    PayAlreadyPaid(first.violations, bound, i, later);
  }

  /** `markViolationAsPaid` on the database. */
  method MarkViolationAsPaid(db: Db, id: Id, now: Time) returns (reply: Result<Violation, PayError>)
    requires db.Valid()
    modifies db
    ensures db.Valid()
    ensures var p := Pay(old(db.violations), id, now); db.violations == p.violations && reply == p.reply
    ensures db.users == old(db.users) && db.nextId == old(db.nextId)
    ensures db.types == old(db.types) && db.areas == old(db.areas)
  {
    PayKeepsInvariant(db.users, db.violations, db.nextId, id, now);
    var found := FindViolation(db.violations, id);
    if found.None? {
      return Err(NotFound);
    }
    var i := found.value;
    if db.violations[i].status == Paid {
      return Err(AlreadyPaid);
    }
    var paid := db.violations[i].(status := Paid, updatedAt := now);
    db.violations := db.violations[i := paid];
    reply := Ok(paid);
  }
}
