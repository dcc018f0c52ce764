/** Account records as the controllers read and write them (`User.findOne`,
    `User.findById`, `User.create`). The password is kept only as a bcrypt
    digest, its salt left out. */
module Identity {
  import opened Common

  /** bcrypt reads at most the first 72 bytes of a password; the rest of a
      longer password has no effect on its digest. */
  const BcryptMaxInput: nat := 72

  /** The part of a password that bcrypt reads (one byte per character). */
  function BcryptInput(password: string): (r: string)
    ensures |password| <= BcryptMaxInput ==> r == password
    ensures BcryptMaxInput < |password| ==> |r| == BcryptMaxInput && r == password[..BcryptMaxInput]
  {
    if |password| <= BcryptMaxInput then password else password[..BcryptMaxInput]
  }

  /** A bcrypt digest: a function of the part of the password bcrypt reads. */
  datatype Digest = Digest(secret: string)

  function Hash(password: string): Digest
  {
    Digest(BcryptInput(password))
  }

  /** `user.matchPassword(password)`: the candidate hashes to the stored digest. */
  predicate Matches(password: string, stored: Digest)
  {
    Hash(password) == stored
  }

  /** A password matches its own digest, and a candidate matches it exactly
      when the two agree on the bytes bcrypt reads. */
  lemma MatchesOnlyTheHashedPassword(password: string, candidate: string)
    ensures Matches(password, Hash(password))
    ensures Matches(candidate, Hash(password)) <==> BcryptInput(candidate) == BcryptInput(password)
    ensures |candidate| <= BcryptMaxInput && |password| <= BcryptMaxInput ==>
      (Matches(candidate, Hash(password)) <==> candidate == password)
  {
  }

  /** Beyond the 72nd byte nothing counts: any extension of a password that
      long matches its digest, though it is a different password. */
  lemma LongPasswordsCollide(password: string, extra: string)
    requires BcryptMaxInput <= |password|
    ensures Matches(password + extra, Hash(password))
  {
    assert (password + extra)[..BcryptMaxInput] == password[..BcryptMaxInput];
  }

  datatype User = User(
    id: Id,
    username: string,
    fullName: string,
    email: string,
    password: Digest,
    role: Role)

  /** `User.findOne({ email })`: the position of the first account whose
      e-mail is exactly `email`. */
  function FindByEmail(users: seq<User>, email: string): (r: Option<nat>)
    ensures r.Some? ==> r.value < |users| && users[r.value].email == email
    ensures r.Some? ==> forall j :: 0 <= j < r.value ==> users[j].email != email
    ensures r.None? <==> forall j :: 0 <= j < |users| ==> users[j].email != email
  {
    Find(users, (u: User) => u.email, email)
  }

  /** `User.findById(id)`: the position of the account with identifier `id`. */
  function FindById(users: seq<User>, id: Id): Option<nat>
  {
    Find(users, (u: User) => u.id, id)
  }

  /** No two accounts share an e-mail address. */
  ghost predicate UniqueEmails(users: seq<User>)
  {
    forall i, j :: 0 <= i < j < |users| ==> users[i].email != users[j].email
  }

  /** Every account has an identifier below `bound`, and no two share one. */
  ghost predicate IdsBelow(users: seq<User>, bound: nat)
  {
    && (forall i :: 0 <= i < |users| ==> users[i].id < bound)
    && (forall i, j :: 0 <= i < j < |users| ==> users[i].id != users[j].id)
  }

  /** Appending an account whose e-mail is new keeps every lookup of an
      earlier address where it was and makes the new address resolve to it. */
  lemma {:induction false} FindByEmailAppend(users: seq<User>, u: User, email: string)
    ensures FindByEmail(users + [u], email) ==
      (if FindByEmail(users, email).Some? then FindByEmail(users, email)
       else if u.email == email then Some(|users|) else None)
  {
    if users != [] {
      assert (users + [u])[1..] == users[1..] + [u];
      FindByEmailAppend(users[1..], u, email);
    } else {
      assert users + [u] == [u];
    }
  }

  /** With unique identifiers, the account `findById` returns is the one
      stored at any position holding that identifier. */
  lemma FindByIdUnique(users: seq<User>, bound: nat, i: nat)
    requires IdsBelow(users, bound) && i < |users|
    ensures FindById(users, users[i].id) == Some(i)
  {
  }
}
