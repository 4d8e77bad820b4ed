/** Scoring shared by the quiz and the daily challenge: count the positions
    whose chosen answer is the key's, and turn the count into a rounded
    percentage. */
module Scoring {
  import opened Js

  /** The answer chosen at position `i` is the correct one. */
  predicate Hit(key: seq<nat>, answers: map<nat, nat>, i: nat)
    requires i < |key|
  {
    i in answers && answers[i] == key[i]
  }

  /** `key.filter((q, i) => answers[i] === q.correct).length`. */
  function CorrectCount(key: seq<nat>, answers: map<nat, nat>): (c: nat)
    decreases |key|
    ensures c <= |key|
    ensures c == |key| <==> forall i :: 0 <= i < |key| ==> Hit(key, answers, i)
    ensures c == 0 <==> forall i :: 0 <= i < |key| ==> !Hit(key, answers, i)
  {
    if key == [] then 0
    else
      var n := |key| - 1;
      assert forall i :: 0 <= i < n ==> (Hit(key[..n], answers, i) <==> Hit(key, answers, i));
      CorrectCount(key[..n], answers) + (if Hit(key, answers, n) then 1 else 0)
  }

  /** The set of positions answered correctly. */
  function HitSet(key: seq<nat>, answers: map<nat, nat>): set<nat> {
    set i: nat | i < |key| && Hit(key, answers, i)
  }

  /** The count is the number of correctly answered positions. */
  lemma {:induction false} CorrectCountIsHits(key: seq<nat>, answers: map<nat, nat>)
    ensures CorrectCount(key, answers) == |HitSet(key, answers)|
    decreases |key|
  {
    if key != [] {
      var n := |key| - 1;
      CorrectCountIsHits(key[..n], answers);
      HitSetExtends(key, answers);
      assert n !in HitSet(key[..n], answers);
    }
  }

  /** The hits of a key are those of all but its last position, and that
      position when it is a hit. */
  lemma HitSetExtends(key: seq<nat>, answers: map<nat, nat>)
    requires key != []
    ensures HitSet(key, answers)
      == HitSet(key[..|key| - 1], answers) + (if Hit(key, answers, |key| - 1) then {|key| - 1} else {})
  {
    var n := |key| - 1;
    var before, last := HitSet(key[..n], answers), if Hit(key, answers, n) then {n} else {};
    forall i: nat | i in HitSet(key, answers)
      ensures i in before + last
    {
      if i < n {
        assert Hit(key[..n], answers, i);
      }
    }
    forall i: nat | i in before + last
      ensures i in HitSet(key, answers)
    {
      if i < n {
        assert Hit(key, answers, i);
      }
    }
  }

  /** Choosing an answer at one position moves the count by at most one. */
  lemma {:induction false} OneAnswerMovesCountByOne(key: seq<nat>, answers: map<nat, nat>, j: nat, a: nat)
    ensures var before, after := CorrectCount(key, answers), CorrectCount(key, answers[j := a]);
      before - 1 <= after <= before + 1
    decreases |key|
  {
    var b := answers[j := a];
    if key != [] {
      var n := |key| - 1;
      assert forall i :: 0 <= i < n ==> (Hit(key[..n], answers, i) <==> Hit(key, answers, i));
      assert forall i :: 0 <= i < n ==> (Hit(key[..n], b, i) <==> Hit(key, b, i));
      if j == n {
        assert forall i :: 0 <= i < n ==> (Hit(key[..n], answers, i) <==> Hit(key[..n], b, i));
        CountsAgree(key[..n], answers, b);
      } else {
        OneAnswerMovesCountByOne(key[..n], answers, j, a);
        assert Hit(key, answers, n) <==> Hit(key, b, n);
      }
    }
  }

  /** Answers that are right at the same positions give the same count. */
  lemma {:induction false} CountsAgree(key: seq<nat>, a: map<nat, nat>, b: map<nat, nat>)
    requires forall i :: 0 <= i < |key| ==> (Hit(key, a, i) <==> Hit(key, b, i))
    ensures CorrectCount(key, a) == CorrectCount(key, b)
    decreases |key|
  {
    if key != [] {
      var n := |key| - 1;
      assert forall i :: 0 <= i < n ==> (Hit(key[..n], a, i) <==> Hit(key, a, i));
      assert forall i :: 0 <= i < n ==> (Hit(key[..n], b, i) <==> Hit(key, b, i));
      CountsAgree(key[..n], a, b);
    }
  }

  /** `Math.round(correct / total * 100)`. */
  function Score(key: seq<nat>, answers: map<nat, nat>): (r: int)
    requires |key| > 0
    ensures 0 <= r <= 100
    ensures 2 * |key| * r <= 200 * CorrectCount(key, answers) + |key| < 2 * |key| * (r + 1)
    ensures (forall i :: 0 <= i < |key| ==> Hit(key, answers, i)) ==> r == 100
    ensures (forall i :: 0 <= i < |key| ==> !Hit(key, answers, i)) ==> r == 0
  {
    RoundPercent(CorrectCount(key, answers), |key|)
  }
}
