/** The Mongo collections the core reads and writes, held in memory by one
    object: the `users` and `violations` collections, which the controllers
    change, the read-only `violationtypes` and `areas` collections, and the
    source of fresh identifiers. */
module Store {
  import opened Common
  import opened Identity
  import opened ViolationSchema

  /** Every stored violation has an identifier below `bound`, no two share
      one, and each satisfies the schema. */
  ghost predicate ViolationsBelow(vs: seq<Violation>, bound: nat)
  {
    && (forall i :: 0 <= i < |vs| ==> vs[i].id < bound && SchemaValid(vs[i]))
    && (forall i, j :: 0 <= i < j < |vs| ==> vs[i].id != vs[j].id)
  }

  /** The store invariant: identifiers are unique and below the next one to
      be issued, account e-mails are unique, and every violation passed
      schema validation. */
  ghost predicate StoreInvariant(users: seq<User>, vs: seq<Violation>, nextId: nat)
  {
    IdsBelow(users, nextId) && UniqueEmails(users) && ViolationsBelow(vs, nextId)
  }

  class Db {
    var users: seq<User>
    var violations: seq<Violation>
    var types: seq<ViolationType>
    var areas: seq<Area>
    var nextId: nat

    ghost predicate Valid()
      reads this
    {
      StoreInvariant(users, violations, nextId)
    }

    /** An empty database holding the given reference data. */
    constructor (types: seq<ViolationType>, areas: seq<Area>)
      ensures Valid()
      ensures this.users == [] && this.violations == [] && this.nextId == 0
      ensures this.types == types && this.areas == areas
    {
      this.users := [];
      this.violations := [];
      this.types := types;
      this.areas := areas;
      this.nextId := 0;
    }
  }
}
