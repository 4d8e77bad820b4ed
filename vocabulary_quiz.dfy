/** The vocabulary quiz: a fixed bank of eight questions filtered by the
    hub's filter and the chosen quiz type, answered one at a time against a
    five-minute clock, then scored. */
module VocabularyQuiz {
  import opened Js
  import opened Scoring

  datatype QuestionType = Mcq | FillBlanks | Matching
  datatype Difficulty = Beginner | Intermediate | Advanced

  /** The fields of a question the logic reads; the wording and options are
      presentation. */
  datatype Question = Question(id: nat, kind: QuestionType, correct: nat, difficulty: Difficulty)

  const Bank: seq<Question> := [
    Question(1, Mcq, 1, Intermediate),
    Question(2, FillBlanks, 0, Advanced),
    Question(3, Mcq, 1, Intermediate),
    Question(4, Matching, 1, Advanced),
    Question(5, Mcq, 1, Intermediate),
    Question(6, FillBlanks, 0, Advanced),
    Question(7, Mcq, 2, Intermediate),
    Question(8, Matching, 1, Intermediate)
  ]

  /** The hub's `filter` prop: `'all'`, one of the three levels, or any
      other value, which defers to the quiz type. */
  datatype Filter = All | Level(level: Difficulty) | Other

  /** `selectedQuizType`. */
  datatype QuizType = Mixed | Only(kind: QuestionType)

  predicate Keeps(filter: Filter, quizType: QuizType, q: Question) {
    match filter
    case All => true
    case Level(d) => q.difficulty == d
    case Other => quizType.Mixed? || q.kind == quizType.kind
  }

  /** `quizQuestions.filter(...)`. */
  function Select(qs: seq<Question>, filter: Filter, quizType: QuizType): (r: seq<Question>)
    ensures |r| <= |qs|
  {
    if qs == [] then []
    else if Keeps(filter, quizType, qs[0]) then [qs[0]] + Select(qs[1..], filter, quizType)
    else Select(qs[1..], filter, quizType)
  }

  /** The filter keeps exactly the questions it accepts: all of them when
      it accepts every question, none when it accepts none. */
  lemma {:induction false} SelectExactly(qs: seq<Question>, filter: Filter, quizType: QuizType)
    ensures forall q :: q in Select(qs, filter, quizType) <==> q in qs && Keeps(filter, quizType, q)
    ensures (forall q :: q in qs ==> Keeps(filter, quizType, q)) ==> Select(qs, filter, quizType) == qs
    ensures (forall q :: q in qs ==> !Keeps(filter, quizType, q)) ==> Select(qs, filter, quizType) == []
    decreases |qs|
  {
    if qs != [] {
      SelectExactly(qs[1..], filter, quizType);
      assert qs == [qs[0]] + qs[1..];
      assert forall q :: q in qs[1..] ==> q in qs;
    }
  }

  /** The positions from `i` on that the filter accepts, in increasing
      order. */
  function KeptFrom(qs: seq<Question>, filter: Filter, quizType: QuizType, i: nat): seq<nat>
    requires i <= |qs|
    decreases |qs| - i
  {
    if i == |qs| then []
    else (if Keeps(filter, quizType, qs[i]) then [i] else []) + KeptFrom(qs, filter, quizType, i + 1)
  }

  function KeptPositions(qs: seq<Question>, filter: Filter, quizType: QuizType): seq<nat> {
    KeptFrom(qs, filter, quizType, 0)
  }

  lemma {:induction false} KeptFromLength(qs: seq<Question>, filter: Filter, quizType: QuizType, i: nat)
    requires i <= |qs|
    ensures |KeptFrom(qs, filter, quizType, i)| == |Select(qs[i..], filter, quizType)|
    decreases |qs| - i
  {
    if i < |qs| {
      SelectFrom(qs, i, filter, quizType);
      KeptFromLength(qs, filter, quizType, i + 1);
    }
  }

  lemma {:induction false} KeptFromPicks(qs: seq<Question>, filter: Filter, quizType: QuizType, i: nat, k: nat)
    requires i <= |qs| && k < |KeptFrom(qs, filter, quizType, i)|
    ensures var m := KeptFrom(qs, filter, quizType, i);
      && i <= m[k] < |qs|
      && k < |Select(qs[i..], filter, quizType)| && Select(qs[i..], filter, quizType)[k] == qs[m[k]]
    decreases |qs| - i
  {
    SelectFrom(qs, i, filter, quizType);
    var keep := Keeps(filter, quizType, qs[i]);
    if !(keep && k == 0) {
      KeptFromPicks(qs, filter, quizType, i + 1, if keep then k - 1 else k);
    }
  }

  lemma {:induction false} KeptFromIncrease(qs: seq<Question>, filter: Filter, quizType: QuizType, i: nat,
                                            j: nat, k: nat)
    requires i <= |qs| && j < k < |KeptFrom(qs, filter, quizType, i)|
    ensures var m := KeptFrom(qs, filter, quizType, i); m[j] < m[k]
    decreases |qs| - i
  {
    var keep := Keeps(filter, quizType, qs[i]);
    var d := if keep then 1 else 0;
    var m, rest := KeptFrom(qs, filter, quizType, i), KeptFrom(qs, filter, quizType, i + 1);
    assert m[k] == rest[k - d];
    if keep && j == 0 {
      KeptFromPicks(qs, filter, quizType, i + 1, k - 1);
    } else {
      KeptFromIncrease(qs, filter, quizType, i + 1, j - d, k - d);
      assert m[j] == rest[j - d];
    }
  }

  lemma {:induction false} KeptFromExactly(qs: seq<Question>, filter: Filter, quizType: QuizType, i: nat, p: nat)
    requires i <= p < |qs|
    ensures p in KeptFrom(qs, filter, quizType, i) <==> Keeps(filter, quizType, qs[p])
    decreases |qs| - i
  {
    var rest := KeptFrom(qs, filter, quizType, i + 1);
    if p == i {
      if p in rest {
        var k :| 0 <= k < |rest| && rest[k] == p;
        KeptFromPicks(qs, filter, quizType, i + 1, k);
      }
    } else {
      KeptFromExactly(qs, filter, quizType, i + 1, p);
    }
  }

  /** `Array.prototype.filter` keeps order: the filtered list takes, in
      increasing order, exactly the positions of `qs` the filter accepts. */
  lemma SelectKeepsOrder(qs: seq<Question>, filter: Filter, quizType: QuizType)
    ensures var r, m := Select(qs, filter, quizType), KeptPositions(qs, filter, quizType);
      && |m| == |r|
      && (forall k :: 0 <= k < |m| ==> m[k] < |qs| && r[k] == qs[m[k]])
      && (forall j, k :: 0 <= j < k < |m| ==> m[j] < m[k])
      && (forall p :: 0 <= p < |qs| ==> (p in m <==> Keeps(filter, quizType, qs[p])))
  {
    assert qs[0..] == qs;
    KeptFromLength(qs, filter, quizType, 0);
    forall k | 0 <= k < |KeptPositions(qs, filter, quizType)| {
      KeptFromPicks(qs, filter, quizType, 0, k);
    }
    forall j, k | 0 <= j < k < |KeptPositions(qs, filter, quizType)| {
      KeptFromIncrease(qs, filter, quizType, 0, j, k);
    }
    forall p | 0 <= p < |qs| {
      KeptFromExactly(qs, filter, quizType, 0, p);
    }
  }

  /** `filteredQuestions`. */
  function Filtered(filter: Filter, quizType: QuizType): seq<Question> {
    Select(Bank, filter, quizType)
  }

  /** `'all'` keeps the whole bank whatever quiz type is chosen, and so
      does a mixed quiz under a filter that is not a level. */
  lemma AllKeepsEveryQuestion(quizType: QuizType)
    ensures Filtered(All, quizType) == Bank
    ensures Filtered(Other, Mixed) == Bank
  {
    SelectExactly(Bank, All, quizType);
    SelectExactly(Bank, Other, Mixed);
  }

  /** A level filter keeps exactly the questions of that level, whatever the
      quiz type; another filter with a specific type keeps exactly that
      type. */
  lemma FilterSelects(filter: Filter, quizType: QuizType, q: Question)
    requires q in Bank
    ensures filter.Level? ==> (q in Filtered(filter, quizType) <==> q.difficulty == filter.level)
    ensures filter.Other? && quizType.Only? ==> (q in Filtered(filter, quizType) <==> q.kind == quizType.kind)
  {
    SelectExactly(Bank, filter, quizType);
  }

  /** The bank has no beginner question, so the beginner filter leaves the
      quiz empty. */
  lemma BeginnerIsEmpty(quizType: QuizType)
    ensures Filtered(Level(Beginner), quizType) == []
  {
    SelectExactly(Bank, Level(Beginner), quizType);
    assert forall q :: q in Bank ==> q.difficulty != Beginner;
  }

  /** The answer key of a list of questions. */
  function Key(qs: seq<Question>): (key: seq<nat>)
    ensures |key| == |qs| && forall i :: 0 <= i < |qs| ==> key[i] == qs[i].correct
  {
    seq(|qs|, i requires 0 <= i < |qs| => qs[i].correct)
  }

  /** `formatTime`: whole minutes, a colon, and the seconds padded to two
      digits. */
  function FormatTime(seconds: nat): string {
    NatToString(seconds / 60) + ":" + PadStart2(NatToString(seconds % 60))
  }

  lemma FiveMinutes()
    ensures FormatTime(300) == "5:00"
  {
    assert 300 / 60 == 5 && 300 % 60 == 0;
    assert NatToString(5) == "5" && NatToString(0) == "0";
    assert PadStart2("0") == "00";
    assert "5" + ":" + "00" == "5:00";
  }

  /** The clock reads back as the number of seconds it displays: the digits
      before the colon are the minutes and the two digits after it the
      seconds. */
  lemma FormatTimeReadsBack(seconds: nat)
    ensures var m := NatToString(seconds / 60);
      var text := FormatTime(seconds);
      && text[..|m|] == m && text[|m|] == ':'
      && |text| == |m| + 3
      && IsDigits(text[|m| + 1..])
      && ParseNat(m) * 60 + ParseNat(text[|m| + 1..]) == seconds
  {
    var m := NatToString(seconds / 60);
    var sec := NatToString(seconds % 60);
    var text := FormatTime(seconds);
    assert text[|m| + 1..] == PadStart2(sec);
    ParseNatToString(seconds / 60);
    ParseNatToString(seconds % 60);
    if |sec| == 1 {
      ParseNatLeadingZero(sec);
    } else {
      assert |sec| >= 2;
      assert seconds % 60 >= 10;
    }
  }

  const QuizSeconds := 300

  class Quiz {
    /** The `filter` prop, which the hub can change while the quiz is in
        use. */
    var filter: Filter
    var index: int
    var answers: map<nat, nat>
    var showResults: bool
    var score: int
    var timeLeft: int
    var quizStarted: bool
    var quizType: QuizType
    /** The scores passed to `onComplete`, oldest first. */
    var reported: seq<int>

    function Questions(): seq<Question>
      reads this
    {
      Filtered(filter, quizType)
    }

    function Total(): int
      reads this
    {
      |Questions()|
    }

    /** `currentQuestion` is defined. The question screen (started, results
        hidden) reads `currentQuestion.difficulty`, which throws when it is
        not. */
    predicate HasQuestion()
      reads this
    {
      0 <= index < Total()
    }

    /** The clock stays within its five minutes and the selection screen
        has a fresh quiz behind it. The index need not stay on a question:
        a change of filter, or a start with no question, leaves it off the
        list. */
    ghost predicate Valid()
      reads this
    {
      && 0 <= index
      && 0 <= timeLeft <= QuizSeconds
      && (!quizStarted ==> index == 0 && answers == map[] && !showResults)
    }

    constructor (filter: Filter)
      ensures Valid()
      ensures this.filter == filter && quizType == Mixed && !quizStarted
      ensures index == 0 && answers == map[] && !showResults && score == 0
      ensures timeLeft == QuizSeconds && reported == []
    {
      this.filter := filter;
      index, answers, showResults, score := 0, map[], false, 0;
      timeLeft, quizStarted, quizType := QuizSeconds, false, Mixed;
      reported := [];
    }

    /** A quiz-type button on the selection screen. */
    method SelectQuizType(t: QuizType)
      requires Valid() && !quizStarted
      modifies this
      ensures Valid() && quizType == t && filter == old(filter)
      ensures index == old(index) && answers == old(answers) && showResults == old(showResults)
      ensures score == old(score) && timeLeft == old(timeLeft) && !quizStarted
      ensures reported == old(reported)
    {
      quizType := t;
    }

    /** `handleStartQuiz`. */
    method StartQuiz()
      requires Valid()
      modifies this
      ensures Valid() && quizStarted
      ensures index == 0 && answers == map[] && !showResults && score == 0 && timeLeft == QuizSeconds
      ensures quizType == old(quizType) && filter == old(filter) && reported == old(reported)
      ensures HasQuestion() <==> Total() > 0
    {
      quizStarted := true;
      index, answers, showResults, score, timeLeft := 0, map[], false, 0, QuizSeconds;
    }

    /** `resetQuiz`: the same fresh state as starting, on the selection
        screen. */
    method ResetQuiz()
      requires Valid()
      modifies this
      ensures Valid() && !quizStarted
      ensures index == 0 && answers == map[] && !showResults && score == 0 && timeLeft == QuizSeconds
      ensures quizType == old(quizType) && filter == old(filter) && reported == old(reported)
    {
      quizStarted := false;
      index, answers, showResults, score, timeLeft := 0, map[], false, 0, QuizSeconds;
    }

    /** `handleAnswerSelect`: only the current question's answer changes. */
    method AnswerSelect(a: nat)
      requires Valid() && quizStarted && !showResults
      modifies this
      ensures Valid()
      ensures answers == old(answers)[index := a]
      ensures forall i :: i != index ==> (i in answers <==> i in old(answers))
      ensures forall i :: i != index && i in answers ==> answers[i] == old(answers)[i]
      ensures index == old(index) && showResults == old(showResults) && timeLeft == old(timeLeft)
      ensures quizStarted && quizType == old(quizType) && filter == old(filter)
      ensures score == old(score) && reported == old(reported)
    {
      answers := answers[index := a];
    }

    /** `handleNext`: the next question, or the results after the last;
        disabled until the current question is answered. */
    method Next()
      requires Valid() && quizStarted && !showResults && index in answers
      modifies this
      ensures Valid()
      ensures old(index) < Total() - 1 ==> index == old(index) + 1 && !showResults
      ensures old(index) >= Total() - 1 ==> index == old(index) && showResults
      ensures answers == old(answers) && timeLeft == old(timeLeft) && score == old(score)
      ensures quizStarted && quizType == old(quizType) && filter == old(filter) && reported == old(reported)
      ensures old(HasQuestion()) ==> HasQuestion()
    {
      if index < Total() - 1 {
        index := index + 1;
      } else {
        showResults := true;
      }
    }

    /** `handlePrevious`: back one question, never below the first. */
    method Previous()
      requires Valid() && quizStarted && !showResults
      modifies this
      ensures Valid()
      ensures index == if old(index) > 0 then old(index) - 1 else 0
      ensures answers == old(answers) && showResults == old(showResults) && timeLeft == old(timeLeft)
      ensures score == old(score) && quizStarted && quizType == old(quizType) && filter == old(filter)
      ensures reported == old(reported)
      ensures old(HasQuestion()) ==> HasQuestion()
    {
      if index > 0 {
        index := index - 1;
      }
    }

    /** One second of the running clock; the interval runs only while the
        quiz is started, time remains and the results are not shown. At one
        second or less the clock stops at 0 and the results appear. */
    method Tick()
      requires Valid() && quizStarted && timeLeft > 0 && !showResults
      modifies this
      ensures Valid()
      ensures old(timeLeft) <= 1 ==> timeLeft == 0 && showResults
      ensures old(timeLeft) > 1 ==> timeLeft == old(timeLeft) - 1 && !showResults
      ensures index == old(index) && answers == old(answers) && score == old(score)
      ensures quizStarted && quizType == old(quizType) && filter == old(filter) && reported == old(reported)
    {
      if timeLeft <= 1 {
        showResults := true;
        timeLeft := 0;
      } else {
        timeLeft := timeLeft - 1;
      }
    }

    /** The hub's filter changes: the quiz re-filters its questions but
        keeps its index and its answers, which now refer to whichever
        questions sit at those positions. */
    method SetFilter(f: Filter)
      requires Valid()
      modifies this
      ensures Valid() && filter == f && Questions() == Filtered(f, quizType)
      ensures HasQuestion() <==> index < |Filtered(f, quizType)|
      ensures index == old(index) && answers == old(answers) && showResults == old(showResults)
      ensures score == old(score) && timeLeft == old(timeLeft) && quizStarted == old(quizStarted)
      ensures quizType == old(quizType) && reported == old(reported)
    {
      filter := f;
    }

    /** The results effect: the score is computed from the filtered
        questions and the answers, stored and passed to `onComplete`. */
    method ReportScore()
      requires Valid() && showResults && Total() > 0
      modifies this
      ensures Valid()
      ensures quizType == old(quizType) && filter == old(filter)
      ensures score == Score(Key(Questions()), answers)
      ensures 0 <= score <= 100
      ensures reported == old(reported) + [score]
      ensures index == old(index) && answers == old(answers) && showResults
      ensures timeLeft == old(timeLeft) && quizStarted == old(quizStarted)
    {
      score := Score(Key(Questions()), answers);
      reported := reported + [score];
    }
  }

  /** The whole bank has eight questions and only three of them are
      advanced, so a quiz on the sixth question under `'all'` has no
      current question once the filter becomes `'advanced'`. */
  lemma AdvancedLeavesSixthBehind(quizType: QuizType)
    ensures |Filtered(All, quizType)| == 8
    ensures |Filtered(Level(Advanced), quizType)| == 3
    ensures 5 < |Filtered(All, quizType)| && 5 >= |Filtered(Level(Advanced), quizType)|
  {
    AllKeepsEveryQuestion(quizType);
    AdvancedFromSecond(quizType);
    SelectFrom(Bank, 0, Level(Advanced), quizType);
    assert Bank[0..] == Bank;
  }

  /** From the second question on, three are advanced. */
  lemma AdvancedFromSecond(quizType: QuizType)
    ensures |Select(Bank[1..], Level(Advanced), quizType)| == 3
  {
    AdvancedFromFifth(quizType);
    var f := Level(Advanced);
    SelectFrom(Bank, 3, f, quizType);
    SelectFrom(Bank, 2, f, quizType);
    SelectFrom(Bank, 1, f, quizType);
  }

  /** From the fifth question on, one is advanced. */
  lemma AdvancedFromFifth(quizType: QuizType)
    ensures |Select(Bank[4..], Level(Advanced), quizType)| == 1
  {
    var f := Level(Advanced);
    assert Bank[8..] == [];
    SelectFrom(Bank, 7, f, quizType);
    SelectFrom(Bank, 6, f, quizType);
    SelectFrom(Bank, 5, f, quizType);
    SelectFrom(Bank, 4, f, quizType);
  }

  /** One step of the filter over a suffix of the list. */
  lemma SelectFrom(qs: seq<Question>, i: nat, filter: Filter, quizType: QuizType)
    requires i < |qs|
    ensures Select(qs[i..], filter, quizType) ==
      (if Keeps(filter, quizType, qs[i]) then [qs[i]] else []) + Select(qs[i + 1..], filter, quizType)
  {
    assert qs[i..][1..] == qs[i + 1..];
  }

  /** A quiz-taker who answers every question correctly scores 100. */
  lemma PerfectAnswersScoreFull(qs: seq<Question>, answers: map<nat, nat>)
    requires |qs| > 0
    requires forall i :: 0 <= i < |qs| ==> i in answers && answers[i] == qs[i].correct
    ensures Score(Key(qs), answers) == 100
  {
    var key := Key(qs);
    assert forall i :: 0 <= i < |key| ==> Hit(key, answers, i);
  }
}
