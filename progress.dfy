/** `POST /api/progress`: record the status of a word for the signed-in
    user, updating the user's record for that word when there is one and
    inserting one otherwise. */
module Progress {
  import opened Wrappers
  import opened Store
  import opened UserWordModel

  /** `res.json(userWord)` or `res.status(500).send('Server Error')`. */
  datatype ProgressResponse = Json(record: UserWord) | ServerError

  /** The filter `{ user, word: wordId }`. A request without `wordId` puts
      `undefined` in the filter, and a key whose value is `undefined` is
      dropped from a query filter, so the filter then selects any record of
      the user. */
  predicate Selects(w: UserWord, user: nat, word: Option<nat>) {
    w.user == user && (word.None? || w.word == word.value)
  }

  /** The collection has no unique index on the pair; this is the best it
      can promise. */
  predicate AtMostOnePerPair(records: seq<UserWord>) {
    forall i, j :: 0 <= i < j < |records| ==>
      !(records[i].user == records[j].user && records[i].word == records[j].word)
  }

  function UpsertSpec(records: seq<UserWord>, user: nat, word: Option<nat>, status: Option<string>, now: int)
    : (ProgressResponse, seq<UserWord>)
  {
    match FindFirst(records, (w: UserWord) => Selects(w, user, word))
    case Some(i) =>
      (match SetStatus(records[i], status, now)
       case Failure(_) => (ServerError, records)
       case Success(w) => (Json(w), records[i := w]))
    case None =>
      match NewUserWord(user, word, status, now)
      case Failure(_) => (ServerError, records)
      case Success(w) => (Json(w), records + [w])
  }

  class ProgressStore {
    var records: seq<UserWord>

    constructor ()
      ensures records == []
    {
      records := [];
    }

    /** The route handler, for the user `req.user.id` and the request body
        `{ wordId, status }`; either field may be missing. */
    method Upsert(user: nat, wordId: Option<nat>, status: Option<string>, now: int) returns (resp: ProgressResponse)
      modifies this
      ensures (resp, records) == UpsertSpec(old(records), user, wordId, status, now)
    {
      var found := FindFirst(records, (w: UserWord) => Selects(w, user, wordId));
      if found.Some? {
        var i := found.value;
        var updated := SetStatus(records[i], status, now);
        if updated.Failure? {
          return ServerError;
        }
        records := records[i := updated.value];
        resp := Json(updated.value);
      } else {
        var created := NewUserWord(user, wordId, status, now);
        if created.Failure? {
          return ServerError;
        }
        records := records + [created.value];
        resp := Json(created.value);
      }
    }
  }

  /** An existing record for the pair is updated in place and returned; no
      record is added. */
  lemma UpsertUpdatesExisting(records: seq<UserWord>, user: nat, word: nat, status: Option<string>,
                              now: int, i: nat)
    requires FindFirst(records, (w: UserWord) => Selects(w, user, Some(word))) == Some(i)
    requires status.None? || ParseStatus(status.value).Some?
    ensures var (resp, after) := UpsertSpec(records, user, Some(word), status, now);
      && |after| == |records|
      && resp == Json(after[i])
      && after == records[i := after[i]]
      && after[i].lastSeenAt == now
      && after[i].status == (if status.None? then None else ParseStatus(status.value))
  {
  }

  /** Without a record for the pair exactly one is appended, with the
      default status `review` when none was given. */
  lemma UpsertInsertsNew(records: seq<UserWord>, user: nat, word: nat, status: Option<string>, now: int)
    requires forall k :: 0 <= k < |records| ==> !Selects(records[k], user, Some(word))
    requires status.None? || ParseStatus(status.value).Some?
    ensures var (resp, after) := UpsertSpec(records, user, Some(word), status, now);
      && after == records + [UserWord(user, word, if status.None? then Some(Review) else ParseStatus(status.value), now)]
      && resp == Json(after[|records|])
  {
  }

  /** A status outside the enum gives 500 and writes nothing. */
  lemma UpsertRejectsInvalidStatus(records: seq<UserWord>, user: nat, word: Option<nat>, s: string, now: int)
    requires s != "learned" && s != "review"
    ensures UpsertSpec(records, user, word, Some(s), now) == (ServerError, records)
  {
  }

  /** Without `wordId` the first record of the user, whatever its word, is
      the one updated; a user with no record gets 500, because the record
      the route then creates fails the `required` validator on `word`. */
  lemma UpsertWithoutWordId(records: seq<UserWord>, user: nat, status: Option<string>, now: int)
    ensures var (resp, after) := UpsertSpec(records, user, None, status, now);
      && ((forall k :: 0 <= k < |records| ==> records[k].user != user) ==> resp == ServerError && after == records)
      && (forall i :: (&& 0 <= i < |records| && records[i].user == user
                       && (forall k :: 0 <= k < i ==> records[k].user != user)
                       && (status.None? || ParseStatus(status.value).Some?)) ==>
            && after == records[i := after[i]]
            && resp == Json(after[i])
            && after[i].word == records[i].word && after[i].lastSeenAt == now)
  {
    var p := (w: UserWord) => Selects(w, user, None);
    forall i | 0 <= i < |records| && records[i].user == user && (forall k :: 0 <= k < i ==> records[k].user != user)
      ensures FindFirst(records, p) == Some(i)
    {
      assert p(records[i]);
    }
  }

  /** Records the filter does not select are untouched, and only a record
      it selects can be added. */
  lemma UpsertTouchesOnlyItsPair(records: seq<UserWord>, user: nat, word: Option<nat>, status: Option<string>,
                                 now: int)
    ensures var (_, after) := UpsertSpec(records, user, word, status, now);
      && |records| <= |after| <= |records| + 1
      && (forall k :: 0 <= k < |records| && !Selects(records[k], user, word) ==> after[k] == records[k])
      && (forall k :: 0 <= k < |after| ==> k < |records| || Selects(after[k], user, word))
      && (forall k :: 0 <= k < |records| ==>
            after[k].user == records[k].user && after[k].word == records[k].word)
  {
  }

  /** If there was at most one record per pair before, there is at most one
      after. */
  lemma {:induction false} UpsertKeepsPairsUnique(records: seq<UserWord>, user: nat, word: Option<nat>,
                                                  status: Option<string>, now: int)
    requires AtMostOnePerPair(records)
    ensures AtMostOnePerPair(UpsertSpec(records, user, word, status, now).1)
  {
    var after := UpsertSpec(records, user, word, status, now).1;
    UpsertTouchesOnlyItsPair(records, user, word, status, now);
    var found := FindFirst(records, (w: UserWord) => Selects(w, user, word));
    forall i, j | 0 <= i < j < |after|
      ensures !(after[i].user == after[j].user && after[i].word == after[j].word)
    {
      if j == |records| {
        assert found.None?;
        assert !Selects(records[i], user, word);
      }
    }
  }
}
