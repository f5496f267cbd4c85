/** The decision taken for one candidate against the memories it might duplicate. */
module Resolution {
  import opened Types
  import opened Text
  import opened Trigram

  datatype Decision = Decision(action: Action, target: Option<Id>, reason: string)

  /** Categories in which the newest statement replaces the older one. */
  predicate Singleton(c: Category) {
    c.Preference? || c.Instruction?
  }

  /** The index the scan settles on: -1 until a score above zero is seen. */
  function BestIndex(u: Text, content: string, existing: seq<Memory>): (k: int)
    ensures -1 <= k < |existing|
  {
    if existing == [] then -1
    else
      var n := |existing| - 1;
      var k := BestIndex(u, content, existing[..n]);
      if Similarity(u, content, existing[n].content) > BestScore(u, content, existing[..n], k) then n else k
  }

  function BestScore(u: Text, content: string, existing: seq<Memory>, k: int): real
    requires -1 <= k < |existing|
  {
    if k == -1 then 0.0 else Similarity(u, content, existing[k].content)
  }

  /** The scan finds the first memory whose score is greatest, and none only if every score is 0. */
  lemma {:induction false} BestIndexIsFirstMaximum(u: Text, content: string, existing: seq<Memory>)
    ensures var k := BestIndex(u, content, existing);
            && (forall j :: 0 <= j < |existing| ==>
                  Similarity(u, content, existing[j].content) <= BestScore(u, content, existing, k))
            && (forall j :: 0 <= j < k ==>
                  Similarity(u, content, existing[j].content) < BestScore(u, content, existing, k))
            && (k >= 0 ==> BestScore(u, content, existing, k) > 0.0)
    decreases |existing|
  {
    hide Similarity;
    if existing != [] {
      var n := |existing| - 1;
      BestIndexIsFirstMaximum(u, content, existing[..n]);
      var k := BestIndex(u, content, existing[..n]);
      SimilarityRange(u, content, existing[n].content);
      forall j | 0 <= j < |existing|
        ensures Similarity(u, content, existing[j].content) <= BestScore(u, content, existing,
            BestIndex(u, content, existing))
      {
        assert j < n ==> existing[..n][j] == existing[j];
      }
      forall j | 0 <= j < BestIndex(u, content, existing)
        ensures Similarity(u, content, existing[j].content) < BestScore(u, content, existing,
            BestIndex(u, content, existing))
      {
        assert existing[..n][j] == existing[j];
      }
    }
  }

  function Decide(u: Text, candidate: Candidate, existing: seq<Memory>, threshold: real): Decision {
    if existing == [] then Decision(CreateAction, None, "No similar existing memory was found.")
    else
      var k := BestIndex(u, candidate.content, existing);
      var score := BestScore(u, candidate.content, existing, k);
      if k == -1 || score < threshold
      then Decision(CreateAction, None, "Similarity threshold not met, creating a new memory.")
      else Against(u, candidate, existing[k], score)
  }

  /** The decision once a sufficiently similar memory is found. */
  function Against(u: Text, candidate: Candidate, target: Memory, score: real): Decision {
    if Singleton(candidate.category)
    then Decision(UpdateAction, Some(target.id), "Singleton category supersedes the existing memory.")
    else if candidate.confidence > target.confidence
    then Decision(UpdateAction, Some(target.id), "Candidate is more confident than the existing memory.")
    else if u.Normalized(candidate.content) == u.Normalized(target.content) || score >= 0.98
    then Decision(MergeAction, Some(target.id), "Candidate matches an existing memory.")
    else Decision(NoOpAction, Some(target.id), "Existing memory is stronger and materially different.")
  }

  method ResolveMemoryAction(u: Text, candidate: Candidate, existing: seq<Memory>, threshold: real)
      returns (d: Decision)
    ensures d == Decide(u, candidate, existing, threshold)
  {
    if |existing| == 0 {
      return Decision(CreateAction, None, "No similar existing memory was found.");
    }
    var bestIndex := -1;
    var bestScore := 0.0;
    var i := 0;
    while i < |existing|
      invariant 0 <= i <= |existing|
      invariant bestIndex == BestIndex(u, candidate.content, existing[..i])
      invariant bestScore == BestScore(u, candidate.content, existing[..i], bestIndex)
    {
      assert existing[..i + 1][..i] == existing[..i];
      var score := TrigramSimilarity(u, candidate.content, existing[i].content);
      if score > bestScore {
        bestScore := score;
        bestIndex := i;
      }
      i := i + 1;
    }
    assert existing[..i] == existing;
    if bestIndex == -1 || bestScore < threshold {
      return Decision(CreateAction, None, "Similarity threshold not met, creating a new memory.");
    }
    d := Against(u, candidate, existing[bestIndex], bestScore);
  }

  /** The decision for a matched memory: an update in the categories where the newest statement replaces the older
      one, or when the candidate is the more confident; otherwise a merge when the two say the same, and else
      nothing. */
  ghost predicate MatchDecided(u: Text, c: Candidate, m: Memory, d: Decision) {
    var newest := c.category == Preference || c.category == Instruction;
    var same := u.Normalized(c.content) == u.Normalized(m.content) || Similarity(u, c.content, m.content) >= 0.98;
    && (d.action == UpdateAction <==> newest || m.confidence < c.confidence)
    && (d.action == MergeAction <==> !newest && m.confidence >= c.confidence && same)
    && (d.action == NoOpAction <==> !newest && m.confidence >= c.confidence && !same)
  }

  /** The reason reported with it. */
  ghost predicate ReasonGiven(c: Candidate, d: Decision) {
    d.reason == match d.action
                case UpdateAction =>
                  if c.category == Preference || c.category == Instruction
                  then "Singleton category supersedes the existing memory."
                  else "Candidate is more confident than the existing memory."
                case MergeAction => "Candidate matches an existing memory."
                case NoOpAction => "Existing memory is stronger and materially different."
                case CreateAction => d.reason
  }

  lemma AgainstDecides(u: Text, c: Candidate, m: Memory)
    ensures MatchDecided(u, c, m, Against(u, c, m, Similarity(u, c.content, m.content)))
  {
    hide Similarity, Text.Normalized;
  }

  lemma AgainstReasons(u: Text, c: Candidate, m: Memory, score: real)
    ensures ReasonGiven(c, Against(u, c, m, score))
  {
    hide Text.Normalized;
  }

  /** A memory is matched exactly when some score is positive and reaches the threshold; the one matched is
      the first with the greatest score. */
  lemma ResolveMatches(u: Text, candidate: Candidate, existing: seq<Memory>, threshold: real)
    ensures var d := Decide(u, candidate, existing, threshold);
            && (d.action.CreateAction? <==> d.target.None?)
            && (d.action.CreateAction? <==>
                  forall m :: m in existing ==>
                      var s := Similarity(u, candidate.content, m.content); s == 0.0 || s < threshold)
            && (d.action.CreateAction? ==> d.reason == if existing == [] then "No similar existing memory was found."
                                                       else "Similarity threshold not met, creating a new memory.")
            && (d.target.Some? ==>
                  exists k :: && 0 <= k < |existing| && d.target.value == existing[k].id
                              && IsFirstBest(u, candidate.content, existing, k)
                              && MatchDecided(u, candidate, existing[k], d) && ReasonGiven(candidate, d))
  {
    hide Similarity;
    hide Against, MatchDecided, ReasonGiven;
    BestIndexIsFirstMaximum(u, candidate.content, existing);
    var k := BestIndex(u, candidate.content, existing);
    forall m | m in existing
      ensures 0.0 <= Similarity(u, candidate.content, m.content) <= BestScore(u, candidate.content, existing, k)
    {
      SimilarityRange(u, candidate.content, m.content);
    }
    if k >= 0 {
      assert existing[k] in existing;
      AgainstTargets(u, candidate, existing[k], BestScore(u, candidate.content, existing, k));
      AgainstDecides(u, candidate, existing[k]);
      AgainstReasons(u, candidate, existing[k], BestScore(u, candidate.content, existing, k));
      assert IsFirstBest(u, candidate.content, existing, k);
    }
  }

  lemma AgainstTargets(u: Text, candidate: Candidate, target: Memory, score: real)
    ensures var d := Against(u, candidate, target, score);
            d.target == Some(target.id) && !d.action.CreateAction?
  {
  }

  ghost predicate IsFirstBest(u: Text, content: string, existing: seq<Memory>, k: nat)
    requires k < |existing|
  {
    var best := Similarity(u, content, existing[k].content);
    && (forall j :: 0 <= j < |existing| ==> Similarity(u, content, existing[j].content) <= best)
    && (forall j :: 0 <= j < k ==> Similarity(u, content, existing[j].content) < best)
  }

  /** Raising the threshold can only turn a decision into create. */
  lemma ThresholdMonotone(u: Text, candidate: Candidate, existing: seq<Memory>, low: real, high: real)
    requires low <= high
    ensures var d := Decide(u, candidate, existing, high);
            d == Decide(u, candidate, existing, low) || d.action.CreateAction?
  {
  }

  /** Outside the singleton categories an update always raises the confidence. */
  lemma UpdateRaisesConfidence(u: Text, candidate: Candidate, existing: seq<Memory>, threshold: real)
    requires Decide(u, candidate, existing, threshold).action.UpdateAction? && !Singleton(candidate.category)
    ensures exists m :: && m in existing && Decide(u, candidate, existing, threshold).target == Some(m.id)
                        && m.confidence < candidate.confidence
  {
    var k := BestIndex(u, candidate.content, existing);
    assert existing[k] in existing;
  }
}
