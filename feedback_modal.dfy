/** The feedback dialog shown for one assistant message: a thumbs rating,
    optional reasons and an optional comment. */
module FeedbackModal {
  import opened Wrappers
  import opened Js
  import opened ListToggle

  datatype Rating = Up | Down

  /** The entries of `feedbackReasons`, identified by their ids. */
  datatype Reason = Helpful | Accurate | Clear | Confusing | Incorrect | Irrelevant

  /** Display order. */
  const AllReasons: seq<Reason> := [Helpful, Accurate, Clear, Confusing, Incorrect, Irrelevant]

  /** The reasons listed for each rating. */
  predicate Fits(reason: Reason, r: Rating) {
    match reason
    case Helpful | Accurate | Clear => r == Up
    case Confusing | Incorrect | Irrelevant => r == Down
  }

  /** `xs.filter(fits r)`, in order. */
  function Offered(xs: seq<Reason>, r: Rating): seq<Reason>
  {
    if xs == [] then []
    else if Fits(xs[0], r) then [xs[0]] + Offered(xs[1..], r)
    else Offered(xs[1..], r)
  }

  /** What is offered is exactly what is listed and fits the rating. */
  lemma {:induction false} OfferedExactly(xs: seq<Reason>, r: Rating, x: Reason)
    ensures x in Offered(xs, r) <==> x in xs && Fits(x, r)
    decreases |xs|
  {
    if xs != [] {
      OfferedExactly(xs[1..], r, x);
      assert xs == [xs[0]] + xs[1..];
    }
  }

  /** The reason buttons offered for a rating: the three of its own
      polarity, in display order. */
  function OfferedReasons(r: Rating): (offered: seq<Reason>)
    ensures r == Up ==> offered == [Helpful, Accurate, Clear]
    ensures r == Down ==> offered == [Confusing, Incorrect, Irrelevant]
  {
    OfferedByPolarity(r);
    Offered(AllReasons, r)
  }

  /** Runs `Offered` over the display order one reason at a time. */
  lemma OfferedByPolarity(r: Rating)
    ensures Offered(AllReasons, r) == if r == Up then [Helpful, Accurate, Clear] else [Confusing, Incorrect, Irrelevant]
  {
    var s5, s4, s3 := [Irrelevant], [Incorrect, Irrelevant], [Confusing, Incorrect, Irrelevant];
    var s2, s1 := [Clear] + s3, [Accurate, Clear] + s3;
    assert s5[1..] == [] && s4[1..] == s5 && s3[1..] == s4;
    assert s2[1..] == s3 && s1[1..] == s2 && AllReasons[1..] == s1;
  }

  /** The dialog's state; `rating` is `None` until a thumb is pressed. */
  datatype State = State(rating: Option<Rating>, comment: string, selectedReasons: seq<Reason>)

  const Initial := State(None, "", [])

  /** Pressing a thumb sets the rating and leaves the reasons alone. */
  function SetRating(s: State, r: Rating): (t: State)
    ensures t.rating == Some(r)
    ensures t.comment == s.comment && t.selectedReasons == s.selectedReasons
  {
    s.(rating := Some(r))
  }

  function SetComment(s: State, c: string): (t: State)
    ensures t.comment == c
    ensures t.rating == s.rating && t.selectedReasons == s.selectedReasons
  {
    s.(comment := c)
  }

  /** `handleReasonToggle`: exactly that reason's membership flips. */
  function ReasonToggle(s: State, reason: Reason): (t: State)
    ensures reason in t.selectedReasons <==> reason !in s.selectedReasons
    ensures forall x :: x != reason ==> (x in t.selectedReasons <==> x in s.selectedReasons)
    ensures t.rating == s.rating && t.comment == s.comment
  {
    s.(selectedReasons := Toggle(s.selectedReasons, reason))
  }

  /** What `onSubmit` receives. */
  datatype Feedback = Feedback(messageId: nat, rating: Rating, comment: string, reasons: seq<Reason>)

  /** `handleSubmit`: nothing without a rating; otherwise the rating, the
      trimmed comment and the selected reasons, as they stand. */
  function Submit(s: State, messageId: nat): (f: Option<Feedback>)
    ensures f.None? <==> s.rating.None?
    ensures f.Some? ==> f.value == Feedback(messageId, s.rating.value, Trim(s.comment), s.selectedReasons)
  {
    match s.rating
    case None => None
    case Some(r) => Some(Feedback(messageId, r, Trim(s.comment), s.selectedReasons))
  }

  /** The selected reasons survive a change of rating, so a submission can
      carry a reason the current rating does not offer: rate up, pick
      "helpful", switch to down and submit. */
  lemma StaleReasonSubmitted(messageId: nat)
    ensures var s := SetRating(ReasonToggle(SetRating(Initial, Up), Helpful), Down);
      && Helpful in Submit(s, messageId).value.reasons
      && Helpful !in OfferedReasons(Submit(s, messageId).value.rating)
  {
    var picked := ReasonToggle(SetRating(Initial, Up), Helpful);
    assert picked.selectedReasons == [Helpful];
    var s := SetRating(picked, Down);
    assert s.selectedReasons == [Helpful] && s.rating == Some(Down);
    var offered := OfferedReasons(Down);
    assert offered == [Confusing, Incorrect, Irrelevant];
    assert Helpful !in offered;
  }
}
