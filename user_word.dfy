/** The `UserWord` record: which word a user has seen, its learning status
    and when it was last seen. `user` and `word` are required references;
    `status` must be one of the two enum values. */
module UserWordModel {
  import opened Wrappers

  datatype WordStatus = Learned | Review

  /** The enum validator on `status`: `'learned'` or `'review'`. */
  function ParseStatus(s: string): (r: Option<WordStatus>)
    ensures r == Some(Learned) <==> s == "learned"
    ensures r == Some(Review) <==> s == "review"
    ensures r.None? <==> s != "learned" && s != "review"
  {
    if s == "learned" then Some(Learned)
    else if s == "review" then Some(Review)
    else None
  }

  /** `status` is `None` once it has been set to `undefined`. */
  datatype UserWord = UserWord(user: nat, word: nat, status: Option<WordStatus>, lastSeenAt: int)

  /** Why `save` refuses a record: the `required` validator on `word`, or
      the enum validator on `status`. */
  datatype ValidationError = MissingWord | InvalidStatus(given: string)

  /** `new UserWord({ user, word, status })` at time `now`: a missing word
      (the request had no `wordId`) fails the `required` validator, an
      omitted status defaults to `'review'`, `lastSeenAt` to the creation
      time, and a status outside the enum fails validation. */
  function NewUserWord(user: nat, word: Option<nat>, status: Option<string>, now: int)
    : (r: Result<UserWord, ValidationError>)
    ensures word.None? ==> r == Failure(MissingWord)
    ensures word.Some? && status.None? ==> r == Success(UserWord(user, word.value, Some(Review), now))
    ensures word.Some? && status.Some? && ParseStatus(status.value).Some? ==>
      r == Success(UserWord(user, word.value, ParseStatus(status.value), now))
    ensures word.Some? && status.Some? && ParseStatus(status.value).None? ==>
      r == Failure(InvalidStatus(status.value))
  {
    match word
    case None => Failure(MissingWord)
    case Some(wd) =>
      match status
      case None => Success(UserWord(user, wd, Some(Review), now))
      case Some(s) =>
        if ParseStatus(s).Some? then Success(UserWord(user, wd, ParseStatus(s), now))
        else Failure(InvalidStatus(s))
  }

  /** `userWord.status = status; userWord.lastSeenAt = now` followed by the
      validation `save` runs: an omitted status clears the field (there is
      no default on update), a status outside the enum is refused. */
  function SetStatus(w: UserWord, status: Option<string>, now: int): (r: Result<UserWord, ValidationError>)
    ensures r.Success? ==> r.value.user == w.user && r.value.word == w.word && r.value.lastSeenAt == now
    ensures status.None? ==> r == Success(w.(status := None, lastSeenAt := now))
    ensures status.Some? ==> (r.Success? <==> ParseStatus(status.value).Some?)
    ensures r.Success? && status.Some? ==> r.value.status == ParseStatus(status.value)
  {
    match status
    case None => Success(w.(status := None, lastSeenAt := now))
    case Some(s) =>
      if ParseStatus(s).Some? then Success(w.(status := ParseStatus(s), lastSeenAt := now))
      else Failure(InvalidStatus(s))
  }
}
