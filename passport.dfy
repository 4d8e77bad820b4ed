/** The social-login verify callbacks: given the profile a provider returns
    at the end of its sign-in, find or create the user record. The order is
    the same for both providers: a record carrying the provider's id, else a
    record with the profile's email (which is then linked), else a new
    record. Each callback reports `done(null, user)` or `done(error, null)`. */
module Passport {
  import opened Wrappers
  import opened Store
  import opened UserModel

  /** The parts of a provider profile the callbacks read. `emails` and
      `photos` hold each entry's `value`, `""` standing for a missing one;
      `None` is an absent list, which the callbacks index all the same. */
  datatype Profile = Profile(
    id: string, displayName: string,
    emails: Option<seq<string>>, photos: Option<seq<string>>)

  /** The callback's report through `done`. */
  datatype Verified = Resolved(id: Id) | VerifyFailed

  datatype Provider = Google | LinkedIn

  /** The four credentials read from the environment, `""` when unset. */
  datatype OAuthEnv = OAuthEnv(
    googleClientId: string, googleClientSecret: string,
    linkedinClientId: string, linkedinClientSecret: string)

  /** The strategies registered at start-up: a provider is enabled only when
      both its client id and its secret are set. */
  function EnabledStrategies(e: OAuthEnv): (r: set<Provider>)
    ensures Google in r <==> e.googleClientId != "" && e.googleClientSecret != ""
    ensures LinkedIn in r <==> e.linkedinClientId != "" && e.linkedinClientSecret != ""
  {
    (if e.googleClientId != "" && e.googleClientSecret != "" then {Google} else {})
    + (if e.linkedinClientId != "" && e.linkedinClientSecret != "" then {LinkedIn} else {})
  }

  /** `profile.photos[0]?.value || fallback`, for a present photo list. */
  function PhotoOr(photos: seq<string>, fallback: Option<string>): (r: Option<string>)
    ensures |photos| > 0 && photos[0] != "" ==> r == Some(photos[0])
    ensures |photos| == 0 || photos[0] == "" ==> r == fallback
  {
    if |photos| > 0 && photos[0] != "" then Some(photos[0]) else fallback
  }

  function Touch(u: User, now: int): User {
    u.(lastLogin := Some(now))
  }

  /** The first step of both callbacks: a record already carrying the
      provider id only has its login time updated. */
  function TouchAndResolve(users: seq<User>, id: Id, now: int): (Verified, seq<User>)
    requires id < |users|
  {
    match SaveAt(users, id, Touch(users[id], now))
    case Failure(_) => (VerifyFailed, users)
    case Success(after) => (Resolved(id), after)
  }

  function SaveNewAndResolve(users: seq<User>, u: User): (Verified, seq<User>) {
    match SaveNew(users, u)
    case Failure(_) => (VerifyFailed, users)
    case Success(after) => (Resolved(|users|), after)
  }

  // --------------------------------------------------------------- Google

  function GoogleLinked(u: User, p: Profile, now: int): User
    requires p.photos.Some?
  {
    u.(googleId := Some(p.id), avatar := PhotoOr(p.photos.value, u.avatar),
       isEmailVerified := true, lastLogin := Some(now))
  }

  function GoogleAccount(p: Profile, email: string, now: int): User
    requires p.photos.Some?
  {
    NewUser(p.displayName, email, None).(
      googleId := Some(p.id), avatar := PhotoOr(p.photos.value, Some("")),
      isEmailVerified := true, lastLogin := Some(now))
  }

  predicate HasGoogleId(u: User, pid: string) {
    u.googleId == Some(pid)
  }

  /** `profile.emails[0].value` and `profile.photos[0]` are read without a
      guard, so an absent or empty email list, or an absent photo list,
      makes the callback throw before it writes anything. */
  function GoogleVerifySpec(users: seq<User>, p: Profile, now: int): (Verified, seq<User>) {
    match FindFirst(users, (u: User) => HasGoogleId(u, p.id))
    case Some(id) => TouchAndResolve(users, id, now)
    case None =>
      if p.emails.None? || |p.emails.value| == 0 then (VerifyFailed, users)
      else
        var email := p.emails.value[0];
        match FindByEmail(users, email)
        case Some(id) =>
          if p.photos.None? then (VerifyFailed, users)
          else (match SaveAt(users, id, GoogleLinked(users[id], p, now))
                case Failure(_) => (VerifyFailed, users)
                case Success(after) => (Resolved(id), after))
        case None =>
          if p.photos.None? then (VerifyFailed, users)
          else SaveNewAndResolve(users, GoogleAccount(p, email, now))
  }

  method GoogleVerify(store: UserStore, p: Profile, now: int) returns (r: Verified)
    requires store.Valid()
    modifies store
    ensures store.Valid()
    ensures (r, store.users) == GoogleVerifySpec(old(store.users), p, now)
  {
    var found := store.FindOne((u: User) => HasGoogleId(u, p.id));
    if found.Some? {
      var id := found.value;
      var saved := store.Save(id, Touch(store.users[id], now));
      if saved.Failure? {
        return VerifyFailed;
      }
      return Resolved(id);
    }
    if p.emails.None? || |p.emails.value| == 0 {
      return VerifyFailed;
    }
    var email := p.emails.value[0];
    found := store.FindOne((u: User) => u.email == email);
    if found.Some? {
      var id := found.value;
      if p.photos.None? {
        return VerifyFailed;
      }
      var saved := store.Save(id, GoogleLinked(store.users[id], p, now));
      if saved.Failure? {
        return VerifyFailed;
      }
      return Resolved(id);
    }
    if p.photos.None? {
      return VerifyFailed;
    }
    var created := store.Insert(GoogleAccount(p, email, now));
    if created.Failure? {
      return VerifyFailed;
    }
    r := Resolved(created.value);
  }

  /** A record already carrying the Google id is returned with only its
      login time changed. */
  lemma GoogleKnownId(users: seq<User>, p: Profile, now: int, id: Id)
    requires WellFormed(users)
    requires FindFirst(users, (u: User) => HasGoogleId(u, p.id)) == Some(id)
    ensures GoogleVerifySpec(users, p, now) == (Resolved(id), users[id := Touch(users[id], now)])
  {
    SaveAtSameEmail(users, id, Touch(users[id], now));
  }

  /** Otherwise a record with the profile's email is linked: it gains the
      Google id, becomes verified and logged in, takes the provider photo
      when there is one, and keeps everything else, its password included. */
  lemma GoogleLinksByEmail(users: seq<User>, p: Profile, now: int, id: Id)
    requires WellFormed(users)
    requires FindFirst(users, (u: User) => HasGoogleId(u, p.id)).None?
    requires p.emails.Some? && |p.emails.value| > 0 && p.photos.Some?
    requires id < |users| && users[id].email == p.emails.value[0]
    ensures var (r, after) := GoogleVerifySpec(users, p, now);
      && r == Resolved(id) && |after| == |users|
      && after == users[id := GoogleLinked(users[id], p, now)]
      && after[id].googleId == Some(p.id) && after[id].isEmailVerified
      && after[id].password == users[id].password
      && after[id].avatar == (if |p.photos.value| > 0 && p.photos.value[0] != "" then Some(p.photos.value[0])
                              else users[id].avatar)
  {
    FindByEmailUnique(users, id);
    SaveAtSameEmail(users, id, GoogleLinked(users[id], p, now));
  }

  /** Otherwise a new verified, passwordless record is created with the
      Google id, the display name, the email and the photo or `""`. */
  lemma GoogleCreates(users: seq<User>, p: Profile, now: int)
    requires WellFormed(users)
    requires FindFirst(users, (u: User) => HasGoogleId(u, p.id)).None?
    requires p.emails.Some? && |p.emails.value| > 0 && p.emails.value[0] != "" && p.photos.Some?
    requires FindByEmail(users, p.emails.value[0]).None?
    ensures var (r, after) := GoogleVerifySpec(users, p, now);
      && r == Resolved(|users|)
      && after == users + [GoogleAccount(p, p.emails.value[0], now)]
      && after[|users|].name == p.displayName && after[|users|].isEmailVerified
      && after[|users|].password.None? && after[|users|].avatar.Some?
  {
  }

  /** A profile without emails cannot be resolved by email, so unless the
      Google id is known the callback fails and nothing is written. */
  lemma GoogleNeedsEmail(users: seq<User>, p: Profile, now: int)
    requires FindFirst(users, (u: User) => HasGoogleId(u, p.id)).None?
    requires p.emails.None? || p.emails.value == []
    ensures GoogleVerifySpec(users, p, now) == (VerifyFailed, users)
  {
  }

  /** Whichever way a Google callback resolved, a repeat callback with the
      same profile resolves to the same record and creates none. */
  lemma GoogleIdempotent(users: seq<User>, p: Profile, now: int, later: int)
    requires WellFormed(users)
    requires GoogleVerifySpec(users, p, now).0.Resolved?
    ensures var (r, after) := GoogleVerifySpec(users, p, now);
      && WellFormed(after)
      && FindFirst(after, (u: User) => HasGoogleId(u, p.id)) == Some(r.id)
      && GoogleVerifySpec(after, p, later) == (r, after[r.id := Touch(after[r.id], later)])
  {
    var pred := (u: User) => HasGoogleId(u, p.id);
    var (r, after) := GoogleVerifySpec(users, p, now);
    match FindFirst(users, pred) {
      case Some(id) =>
        SaveAtSameEmail(users, id, Touch(users[id], now));
        FindFirstReplaceMatch(users, pred, id, Touch(users[id], now));
      case None =>
        var email := p.emails.value[0];
        match FindByEmail(users, email) {
          case Some(id) =>
            FindFirstReplaceNoMatch(users, pred, id, GoogleLinked(users[id], p, now));
          case None =>
            FindFirstAppendMatch(users, pred, GoogleAccount(p, email, now));
        }
    }
    GoogleKnownId(after, p, later, r.id);
  }

  // ------------------------------------------------------------- LinkedIn

  function LinkedInLinked(u: User, p: Profile, now: int): User
    requires p.photos.Some?
  {
    u.(linkedinId := Some(p.id), avatar := PhotoOr(p.photos.value, u.avatar),
       isEmailVerified := true, lastLogin := Some(now))
  }

  /** `linkedin_${profile.id}@temp.com`. */
  function PlaceholderEmail(pid: string): string {
    "linkedin_" + pid + "@temp.com"
  }

  /** `email || placeholder`, verified only when the profile had an email. */
  function LinkedInAccount(p: Profile, email: string, now: int): User
    requires p.photos.Some?
  {
    NewUser(p.displayName, if email != "" then email else PlaceholderEmail(p.id), None).(
      linkedinId := Some(p.id), avatar := PhotoOr(p.photos.value, Some("")),
      isEmailVerified := email != "", lastLogin := Some(now))
  }

  predicate HasLinkedInId(u: User, pid: string) {
    u.linkedinId == Some(pid)
  }

  /** `profile.emails[0]?.value`: `""` for an empty list. */
  function LinkedInEmail(emails: seq<string>): string {
    if |emails| > 0 then emails[0] else ""
  }

  /** Unlike the Google callback, an empty email list is tolerated: linking
      is skipped and the new record gets a placeholder email. */
  function LinkedInVerifySpec(users: seq<User>, p: Profile, now: int): (Verified, seq<User>) {
    match FindFirst(users, (u: User) => HasLinkedInId(u, p.id))
    case Some(id) => TouchAndResolve(users, id, now)
    case None =>
      if p.emails.None? then (VerifyFailed, users)
      else
        var email := LinkedInEmail(p.emails.value);
        var linked := if email != "" then FindByEmail(users, email) else None;
        match linked
        case Some(id) =>
          if p.photos.None? then (VerifyFailed, users)
          else (match SaveAt(users, id, LinkedInLinked(users[id], p, now))
                case Failure(_) => (VerifyFailed, users)
                case Success(after) => (Resolved(id), after))
        case None =>
          if p.photos.None? then (VerifyFailed, users)
          else SaveNewAndResolve(users, LinkedInAccount(p, email, now))
  }

  method LinkedInVerify(store: UserStore, p: Profile, now: int) returns (r: Verified)
    requires store.Valid()
    modifies store
    ensures store.Valid()
    ensures (r, store.users) == LinkedInVerifySpec(old(store.users), p, now)
  {
    var found := store.FindOne((u: User) => HasLinkedInId(u, p.id));
    if found.Some? {
      var id := found.value;
      var saved := store.Save(id, Touch(store.users[id], now));
      if saved.Failure? {
        return VerifyFailed;
      }
      return Resolved(id);
    }
    if p.emails.None? {
      return VerifyFailed;
    }
    var email := LinkedInEmail(p.emails.value);
    if email != "" {
      found := store.FindOne((u: User) => u.email == email);
      if found.Some? {
        var id := found.value;
        if p.photos.None? {
          return VerifyFailed;
        }
        var saved := store.Save(id, LinkedInLinked(store.users[id], p, now));
        if saved.Failure? {
          return VerifyFailed;
        }
        return Resolved(id);
      }
    }
    if p.photos.None? {
      return VerifyFailed;
    }
    var created := store.Insert(LinkedInAccount(p, email, now));
    if created.Failure? {
      return VerifyFailed;
    }
    r := Resolved(created.value);
  }

  /** Otherwise a record with the profile's email is linked: it gains the
      LinkedIn id, becomes verified and logged in, takes the provider photo
      when there is one, and keeps everything else, its password included. */
  lemma LinkedInLinksByEmail(users: seq<User>, p: Profile, now: int, id: Id)
    requires WellFormed(users)
    requires FindFirst(users, (u: User) => HasLinkedInId(u, p.id)).None?
    requires p.emails.Some? && |p.emails.value| > 0 && p.photos.Some?
    requires id < |users| && users[id].email == p.emails.value[0]
    ensures var (r, after) := LinkedInVerifySpec(users, p, now);
      && r == Resolved(id) && |after| == |users|
      && after == users[id := LinkedInLinked(users[id], p, now)]
      && after[id].linkedinId == Some(p.id) && after[id].isEmailVerified
      && after[id].password == users[id].password
      && after[id].avatar == (if |p.photos.value| > 0 && p.photos.value[0] != "" then Some(p.photos.value[0])
                              else users[id].avatar)
  {
    FindByEmailUnique(users, id);
    SaveAtSameEmail(users, id, LinkedInLinked(users[id], p, now));
  }

  /** Without an email the new record has the placeholder address and is
      not verified; with one it is verified. Either way the record is
      appended and nothing else changes. */
  lemma LinkedInCreates(users: seq<User>, p: Profile, now: int)
    requires WellFormed(users)
    requires FindFirst(users, (u: User) => HasLinkedInId(u, p.id)).None?
    requires p.emails.Some? && p.photos.Some?
    requires var email := LinkedInEmail(p.emails.value);
      email == "" || FindByEmail(users, email).None?
    requires LinkedInEmail(p.emails.value) == "" ==>
      forall k :: 0 <= k < |users| ==> users[k].email != PlaceholderEmail(p.id)
    ensures var (r, after) := LinkedInVerifySpec(users, p, now);
      var email := LinkedInEmail(p.emails.value);
      && r == Resolved(|users|) && |after| == |users| + 1
      && after == users + [LinkedInAccount(p, email, now)]
      && after[|users|].linkedinId == Some(p.id)
      && after[|users|].email == (if email != "" then email else PlaceholderEmail(p.id))
      && after[|users|].isEmailVerified == (email != "")
  {
  }

  /** A second email-less profile whose placeholder address is already
      taken cannot be saved: the unique index refuses it and the callback
      fails without writing. */
  lemma LinkedInPlaceholderTaken(users: seq<User>, p: Profile, now: int, id: Id)
    requires FindFirst(users, (u: User) => HasLinkedInId(u, p.id)).None?
    requires p.emails.Some? && LinkedInEmail(p.emails.value) == ""
    requires id < |users| && users[id].email == PlaceholderEmail(p.id)
    ensures LinkedInVerifySpec(users, p, now) == (VerifyFailed, users)
  {
  }

  /** Whichever way a LinkedIn callback resolved, a repeat callback with the
      same profile resolves to the same record and creates none. */
  lemma LinkedInIdempotent(users: seq<User>, p: Profile, now: int, later: int)
    requires WellFormed(users)
    requires LinkedInVerifySpec(users, p, now).0.Resolved?
    ensures var (r, after) := LinkedInVerifySpec(users, p, now);
      && WellFormed(after)
      && FindFirst(after, (u: User) => HasLinkedInId(u, p.id)) == Some(r.id)
      && LinkedInVerifySpec(after, p, later) == (r, after[r.id := Touch(after[r.id], later)])
  {
    var pred := (u: User) => HasLinkedInId(u, p.id);
    var (r, after) := LinkedInVerifySpec(users, p, now);
    match FindFirst(users, pred) {
      case Some(id) =>
        SaveAtSameEmail(users, id, Touch(users[id], now));
        FindFirstReplaceMatch(users, pred, id, Touch(users[id], now));
      case None =>
        var email := LinkedInEmail(p.emails.value);
        var linked := if email != "" then FindByEmail(users, email) else None;
        match linked {
          case Some(id) =>
            FindFirstReplaceNoMatch(users, pred, id, LinkedInLinked(users[id], p, now));
          case None =>
            FindFirstAppendMatch(users, pred, LinkedInAccount(p, email, now));
        }
    }
    SaveAtSameEmail(after, r.id, Touch(after[r.id], later));
  }
}
