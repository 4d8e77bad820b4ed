/** The user record and the constraints the `users` collection enforces
    when a record is saved: `email` is required (an empty string fails
    Mongoose's `required` validator) and unique (a second record with the
    same email is refused by the unique index). A record's id is its
    position in the collection, so ids follow insertion order. */
module UserModel {
  import opened Wrappers
  import opened Store

  type Id = nat

  /** A stored password hash. Hashing is a collaborator outside this model;
      it is represented symbolically, so two hashes agree exactly when the
      passwords do, and nothing is ever recovered from a hash. */
  datatype PasswordHash = Hashed(secret: string)

  function Hash(plain: string): PasswordHash {
    Hashed(plain)
  }

  /** `user.comparePassword(candidate)`: a record without a password (a
      guest or an account created by a social login) never matches. */
  predicate PasswordMatches(candidate: string, stored: Option<PasswordHash>) {
    stored == Some(Hash(candidate))
  }

  /** Every field the controllers and the social-login callbacks read or
      write. Times are milliseconds since the epoch; `None` is a field that
      was never set or was cleared. */
  datatype User = User(
    name: string,
    email: string,
    password: Option<PasswordHash>,
    avatar: Option<string>,
    isGuest: bool,
    isEmailVerified: bool,
    googleId: Option<string>,
    linkedinId: Option<string>,
    lastLogin: Option<int>,
    emailVerificationToken: Option<string>,
    emailVerificationExpires: Option<int>,
    passwordResetToken: Option<string>,
    passwordResetExpires: Option<int>,
    streak: int,
    dailyGoal: int,
    completedToday: int)

  /** `new User({name, email, password})`, with the schema's defaults. */
  function NewUser(name: string, email: string, password: Option<PasswordHash>): (u: User)
    ensures u.name == name && u.email == email && u.password == password
    ensures u.streak == 0 && u.dailyGoal == 20 && u.completedToday == 0
    ensures !u.isGuest && !u.isEmailVerified && u.avatar.None?
    ensures u.googleId.None? && u.linkedinId.None? && u.lastLogin.None?
    ensures u.passwordResetToken.None? && u.emailVerificationToken.None?
  {
    User(name, email, password, None, false, false, None, None, None,
         None, None, None, None, 0, 20, 0)
  }

  predicate EmailsPresent(users: seq<User>) {
    forall i :: 0 <= i < |users| ==> users[i].email != ""
  }

  predicate EmailsUnique(users: seq<User>) {
    forall i, j :: 0 <= i < j < |users| ==> users[i].email != users[j].email
  }

  /** What the collection guarantees about its contents at all times. */
  predicate WellFormed(users: seq<User>) {
    EmailsPresent(users) && EmailsUnique(users)
  }

  datatype SaveError = MissingEmail | DuplicateEmail

  /** `User.findOne({ email })`. */
  function FindByEmail(users: seq<User>, email: string): (r: Option<Id>)
    ensures r.Some? ==> r.value < |users| && users[r.value].email == email
    ensures r.None? <==> forall k :: 0 <= k < |users| ==> users[k].email != email
  {
    FindFirst(users, (u: User) => u.email == email)
  }

  /** In a well-formed collection an email finds the one record that holds
      it. */
  lemma FindByEmailUnique(users: seq<User>, id: Id)
    requires WellFormed(users) && id < |users|
    ensures FindByEmail(users, users[id].email) == Some(id)
  {
  }

  /** `save()` of a new record: refused when its email is empty or already
      taken, otherwise appended with the next id. */
  function SaveNew(users: seq<User>, u: User): (r: Result<seq<User>, SaveError>)
    ensures u.email == "" ==> r == Failure(MissingEmail)
    ensures r.Failure? ==> u.email == "" || exists k :: 0 <= k < |users| && users[k].email == u.email
    ensures r.Success? ==> r.value == users + [u]
    ensures WellFormed(users) && r.Success? ==> WellFormed(r.value)
  {
    if u.email == "" then Failure(MissingEmail)
    else if FindByEmail(users, u.email).Some? then Failure(DuplicateEmail)
    else Success(users + [u])
  }

  /** `save()` of the record with id `id`: refused when the new email is
      empty or held by another record, otherwise replaced in place. */
  function SaveAt(users: seq<User>, id: Id, u: User): (r: Result<seq<User>, SaveError>)
    requires id < |users|
    ensures r.Failure? ==> u.email == "" || exists k :: 0 <= k < |users| && k != id && users[k].email == u.email
    ensures r.Success? ==> r.value == users[id := u]
    ensures WellFormed(users) && r.Success? ==> WellFormed(r.value)
  {
    if u.email == "" then Failure(MissingEmail)
    else if exists k :: 0 <= k < |users| && k != id && users[k].email == u.email then Failure(DuplicateEmail)
    else Success(users[id := u])
  }

  /** Saving a record whose email is unchanged cannot break the index, so in
      a well-formed collection it always succeeds. */
  lemma SaveAtSameEmail(users: seq<User>, id: Id, u: User)
    requires WellFormed(users) && id < |users| && u.email == users[id].email
    ensures SaveAt(users, id, u) == Success(users[id := u])
  {
    assert forall k :: 0 <= k < |users| && k != id ==> users[k].email != u.email by {
      forall k | 0 <= k < |users| && k != id
        ensures users[k].email != u.email
      {
        if k < id {
          assert users[k].email != users[id].email;
        } else {
          assert users[id].email != users[k].email;
        }
      }
    }
  }

  /** The collection object: its methods perform `findOne` and `save`. */
  class UserStore {
    var users: seq<User>

    ghost predicate Valid()
      reads this
    {
      WellFormed(users)
    }

    constructor ()
      ensures Valid() && users == []
    {
      users := [];
    }

    method FindOne(p: User -> bool) returns (r: Option<Id>)
      ensures r == FindFirst(users, p)
    {
      r := FindFirst(users, p);
    }

    /** `new User({...}).save()`. */
    method Insert(u: User) returns (r: Result<Id, SaveError>)
      requires Valid()
      modifies this
      ensures Valid()
      ensures match SaveNew(old(users), u)
        case Success(s) => users == s && r == Success(|old(users)|)
        case Failure(e) => users == old(users) && r == Failure(e)
    {
      var s := SaveNew(users, u);
      if s.Success? {
        r := Success(|users|);
        users := s.value;
      } else {
        r := Failure(s.error);
      }
    }

    /** `user.save()` of a record that was read from the collection. */
    method Save(id: Id, u: User) returns (r: Result<(), SaveError>)
      requires Valid() && id < |users|
      modifies this
      ensures Valid()
      ensures match SaveAt(old(users), id, u)
        case Success(s) => users == s && r == Success(())
        case Failure(e) => users == old(users) && r == Failure(e)
    {
      var s := SaveAt(users, id, u);
      if s.Success? {
        users := s.value;
        r := Success(());
      } else {
        r := Failure(s.error);
      }
    }
  }
}
