/** Which audit results are sent to human review, and what happens to them meanwhile. */
module Review {
  import opened Wrappers
  import opened ReviewCases

  datatype AIReview = AIReview(enabled: bool, status: string, action: string, confidence: real, category: string)

  datatype Hit = Hit(kind: string, variantKind: string, score: int, category: string)

  /** The audit's result, with the fields that the review fills in. */
  datatype Result = Result(
    action: string, riskScore: int, ai: Option<AIReview>, hits: seq<Hit>,
    reviewStatus: string, reviewCaseID: string, temporaryAction: string, reviewReason: string, reviewPriority: string)

  datatype Policy = Policy(
    enabled: bool, aiReviewEnabled: bool, variantReviewEnabled: bool, allowAIHardBlock: bool,
    aiReviewThreshold: real, aiLogOnlyBelow: real, aiTemporaryBlockThreshold: real, variantReviewThreshold: real,
    humanForPinyin: bool, humanForHomophone: bool, uncertainDefault: string)

  const LOG_ONLY: string := "log_only"
  const REVIEW_ONLY: string := "review_only"
  const TEMPORARY_BLOCK: string := "temporary_block"
  const TEMPORARY_ALLOW: string := "temporary_allow"

  // ---------- The reason ----------

  predicate IsVariant(h: Hit) {
    h.variantKind != "" || h.kind == "pinyin" || h.kind == "homophone"
  }

  predicate HasVariant(hits: seq<Hit>, kind: string) {
    exists i :: 0 <= i < |hits| && IsVariant(hits[i]) && (hits[i].kind == kind || hits[i].variantKind == kind)
  }

  function MaxVariant(hits: seq<Hit>): nat {
    if hits == [] then 0
    else
      var m, h := MaxVariant(hits[..|hits| - 1]), hits[|hits| - 1];
      if IsVariant(h) && h.score > m then h.score else m
  }

  /** maxVariantScore: the loop over the hits. */
  method MaxVariantScore(hits: seq<Hit>) returns (score: real)
    ensures score == MaxVariant(hits) as real / 100.0
    ensures forall i :: 0 <= i < |hits| && IsVariant(hits[i]) ==> hits[i].score as real / 100.0 <= score
    ensures score == 0.0 || exists i :: 0 <= i < |hits| && IsVariant(hits[i]) && hits[i].score as real / 100.0 == score
  {
    var max := 0;
    for i := 0 to |hits|
      invariant max == MaxVariant(hits[..i]) && max >= 0
      invariant forall k :: 0 <= k < i && IsVariant(hits[k]) ==> hits[k].score <= max
      invariant max == 0 || exists k :: 0 <= k < i && IsVariant(hits[k]) && hits[k].score == max
    {
      assert hits[..i + 1][..i] == hits[..i];
      if IsVariant(hits[i]) && hits[i].score > max {
        max := hits[i].score;
      }
    }
    assert hits[..|hits|] == hits;
    score := max as real / 100.0;
  }

  datatype Reason = Reason(reason: string, aiScore: real)

  predicate AIUsed(p: Policy, r: Result) {
    r.ai.Some? && p.aiReviewEnabled && r.ai.value.enabled
  }

  /** reviewReason, and the AI score it is based on. */
  function ReasonFor(p: Policy, r: Result): Reason {
    if r.action == "block" then Reason("", 0.0)
    else
      var score := if AIUsed(p, r) then r.ai.value.confidence else 0.0;
      var done := AIUsed(p, r) && r.ai.value.status in ["success", "cached"];
      if done && score >= p.aiReviewThreshold then Reason("ai_score_above_review_threshold", score)
      else if done && r.ai.value.action == "block_recommended" && !p.allowAIHardBlock then Reason("ai_block_recommended_review_first", score)
      else if done && r.ai.value.action == "review" && score >= p.aiLogOnlyBelow then Reason("ai_uncertain_review", score)
      else if p.variantReviewEnabled && MaxVariant(r.hits) as real / 100.0 >= p.variantReviewThreshold then
        if HasVariant(r.hits, "pinyin") && p.humanForPinyin then Reason("pinyin_variant_review_first", score)
        else if HasVariant(r.hits, "homophone") && p.humanForHomophone then Reason("homophone_variant_review_first", score)
        else Reason("variant_score_above_review_threshold", score)
      else Reason("", score)
  }

  lemma {:induction false} MaxVariantIs(hits: seq<Hit>)
    ensures forall h :: h in hits && IsVariant(h) ==> h.score <= MaxVariant(hits)
    ensures MaxVariant(hits) == 0 || exists h :: h in hits && IsVariant(h) && h.score == MaxVariant(hits)
  {
    hide IsVariant;
    if hits != [] {
      var init, h := hits[..|hits| - 1], hits[|hits| - 1];
      MaxVariantIs(init);
      assert hits == init + [h];
      if MaxVariant(hits) != MaxVariant(init) {
        assert h in hits;
      }
    }
  }

  /** Some variant hit reaches the threshold, or there is none to reach. */
  ghost predicate VariantReaches(p: Policy, hits: seq<Hit>) {
    p.variantReviewThreshold <= 0.0 ||
    exists h :: h in hits && (h.variantKind != "" || h.kind in ["pinyin", "homophone"])
                && h.score as real / 100.0 >= p.variantReviewThreshold
  }

  lemma MaxReachesIff(p: Policy, hits: seq<Hit>)
    ensures MaxVariant(hits) as real / 100.0 >= p.variantReviewThreshold <==> VariantReaches(p, hits)
  {
    hide MaxVariant;
    MaxVariantIs(hits);
  }

  /** The AI review was run and finished, and its verdict calls for a human. */
  ghost predicate AICalls(p: Policy, r: Result) {
    && AIUsed(p, r) && r.ai.value.status in ["success", "cached"]
    && (|| r.ai.value.confidence >= p.aiReviewThreshold
        || (r.ai.value.action == "block_recommended" && !p.allowAIHardBlock)
        || (r.ai.value.action == "review" && r.ai.value.confidence >= p.aiLogOnlyBelow))
  }

  /** A result goes to review exactly when it does not block, and the AI's verdict or a variant calls
      for it. */
  lemma ReviewedIff(p: Policy, r: Result)
    ensures ReasonFor(p, r).reason != "" <==>
            r.action != "block" && (AICalls(p, r) || (p.variantReviewEnabled && VariantReaches(p, r.hits)))
  {
    hide MaxVariant, VariantReaches, HasVariant;
    MaxReachesIff(p, r.hits);
  }

  /** r knows at least as much as s: every hit, and the same AI review with no lower confidence. */
  ghost predicate KnowsMore(r: Result, s: Result) {
    && (forall h :: h in s.hits ==> h in r.hits)
    && (s.ai.Some? ==> r.ai.Some? && r.ai.value.confidence >= s.ai.value.confidence
                       && r.ai.value == s.ai.value.(confidence := r.ai.value.confidence))
  }

  /** More evidence never takes a result out of review, unless it makes the result block. */
  lemma MoreEvidenceStillReviewed(p: Policy, r: Result, s: Result)
    requires KnowsMore(r, s) && r.action != "block"
    ensures ReasonFor(p, s).reason != "" ==> ReasonFor(p, r).reason != ""
  {
    hide ReasonFor, IsVariant;
    ReviewedIff(p, r);
    ReviewedIff(p, s);
  }

  /** Only the AI's verdict and variants do: without them, no hit and no score leads to a review. */
  lemma NoEvidenceNoReview(p: Policy, r: Result)
    requires p.variantReviewThreshold > 0.0
    requires r.ai == None || !p.aiReviewEnabled
    requires forall h :: h in r.hits ==> !IsVariant(h)
    ensures ReasonFor(p, r).reason == ""
  {
    hide ReasonFor;
    ReviewedIff(p, r);
  }

  /** Each reason says what was found. */
  lemma ReasonIs(p: Policy, r: Result)
    ensures var s := ReasonFor(p, r).reason;
            && (s == "ai_score_above_review_threshold" ==> AICalls(p, r) && r.ai.value.confidence >= p.aiReviewThreshold)
            && (s == "ai_block_recommended_review_first" ==> AICalls(p, r) && r.ai.value.action == "block_recommended")
            && (s == "ai_uncertain_review" ==> AICalls(p, r) && r.ai.value.action == "review")
            && (s == "pinyin_variant_review_first" ==> p.humanForPinyin && HasKind(r.hits, "pinyin"))
            && (s == "homophone_variant_review_first" ==> p.humanForHomophone && HasKind(r.hits, "homophone"))
            && (s in ["pinyin_variant_review_first", "homophone_variant_review_first", "variant_score_above_review_threshold"] <==>
                r.action != "block" && !AICalls(p, r) && p.variantReviewEnabled && VariantReaches(p, r.hits))
            && (s == "variant_score_above_review_threshold" ==>
                  !(p.humanForPinyin && HasKind(r.hits, "pinyin")) && !(p.humanForHomophone && HasKind(r.hits, "homophone")))
  {
    hide ReasonFor, AICalls, VariantReaches, HasKind;
    AIReasonIs(p, r);
    VariantReasonIs(p, r);
  }

  lemma AIReasonIs(p: Policy, r: Result)
    ensures var s := ReasonFor(p, r).reason;
            && (s == "ai_score_above_review_threshold" ==> AICalls(p, r) && r.ai.value.confidence >= p.aiReviewThreshold)
            && (s == "ai_block_recommended_review_first" ==> AICalls(p, r) && r.ai.value.action == "block_recommended")
            && (s == "ai_uncertain_review" ==> AICalls(p, r) && r.ai.value.action == "review")
  {
    hide MaxVariant, HasVariant;
  }

  lemma VariantReasonIs(p: Policy, r: Result)
    ensures var s := ReasonFor(p, r).reason;
            && (s in ["pinyin_variant_review_first", "homophone_variant_review_first", "variant_score_above_review_threshold"] <==>
                r.action != "block" && !AICalls(p, r) && p.variantReviewEnabled && VariantReaches(p, r.hits))
            && (s == "pinyin_variant_review_first" ==> p.humanForPinyin && HasKind(r.hits, "pinyin"))
            && (s == "homophone_variant_review_first" ==> p.humanForHomophone && HasKind(r.hits, "homophone"))
            && (s == "variant_score_above_review_threshold" ==>
                  !(p.humanForPinyin && HasKind(r.hits, "pinyin")) && !(p.humanForHomophone && HasKind(r.hits, "homophone")))
  {
    hide MaxVariant, VariantReaches, HasVariant, HasKind;
    MaxReachesIff(p, r.hits);
    HasKindIff(r.hits, "pinyin");
    HasKindIff(r.hits, "homophone");
  }

  /** Some hit is of the kind, or reports a variant of it. */
  ghost predicate HasKind(hits: seq<Hit>, kind: string) {
    exists h :: h in hits && (h.kind == kind || h.variantKind == kind)
  }

  lemma HasKindIff(hits: seq<Hit>, kind: string)
    requires kind in ["pinyin", "homophone"]
    ensures HasVariant(hits, kind) <==> HasKind(hits, kind)
  {
    if h :| h in hits && (h.kind == kind || h.variantKind == kind) {
      var i :| 0 <= i < |hits| && hits[i] == h;
      assert IsVariant(hits[i]);
    }
  }

  /** The AI's confidence, if it was asked. */
  ghost function Confidence(p: Policy, r: Result): real {
    if r.ai.Some? && p.aiReviewEnabled && r.ai.value.enabled then r.ai.value.confidence else 0.0
  }

  function TemporaryAction(p: Policy, aiScore: real): string {
    if p.uncertainDefault == TEMPORARY_BLOCK && aiScore >= p.aiTemporaryBlockThreshold then TEMPORARY_BLOCK
    else if p.uncertainDefault == LOG_ONLY then LOG_ONLY
    else if p.uncertainDefault == REVIEW_ONLY then REVIEW_ONLY
    else if p.uncertainDefault == TEMPORARY_BLOCK then REVIEW_ONLY
    else if p.uncertainDefault == "" then TEMPORARY_ALLOW
    else p.uncertainDefault
  }

  function PriorityFor(aiScore: real, variantScore: real, riskScore: int): string {
    var score := if variantScore > aiScore then variantScore else aiScore;
    if score >= 0.95 || riskScore >= 95 then "critical"
    else if score >= 0.85 || riskScore >= 85 then "high"
    else if score >= 0.70 || riskScore >= 70 then "medium"
    else "low"
  }

  /** What is done until a human has decided. */
  ghost predicate TemporaryIs(p: Policy, confidence: real, t: string) {
    && (t == "temporary_block" <==> p.uncertainDefault == "temporary_block" && confidence >= p.aiTemporaryBlockThreshold)
    && (t == "temporary_allow" <==> p.uncertainDefault in ["", "temporary_allow"])
    && (p.uncertainDefault == "temporary_block" && confidence < p.aiTemporaryBlockThreshold ==> t == "review_only")
    && (p.uncertainDefault !in ["", "temporary_block"] ==> t == p.uncertainDefault)
  }

  /** The AI's confidence, a variant hit or the risk is at so many percent. */
  ghost predicate Reaches(percent: int, confidence: real, hits: seq<Hit>, risk: int) {
    || confidence >= percent as real / 100.0 || risk >= percent
    || exists h :: h in hits && (h.variantKind != "" || h.kind in ["pinyin", "homophone"]) && h.score >= percent
  }

  ghost predicate PriorityIs(priority: string, confidence: real, hits: seq<Hit>, risk: int) {
    priority == if Reaches(95, confidence, hits, risk) then "critical"
                else if Reaches(85, confidence, hits, risk) then "high"
                else if Reaches(70, confidence, hits, risk) then "medium"
                else "low"
  }

  lemma MaxReachesPercent(hits: seq<Hit>, percent: int)
    requires percent > 0
    ensures MaxVariant(hits) as real / 100.0 >= percent as real / 100.0 <==>
            exists h :: h in hits && (h.variantKind != "" || h.kind in ["pinyin", "homophone"]) && h.score >= percent
  {
    hide MaxVariant;
    MaxVariantIs(hits);
  }

  lemma PriorityForIs(confidence: real, hits: seq<Hit>, risk: int)
    ensures PriorityIs(PriorityFor(confidence, MaxVariant(hits) as real / 100.0, risk), confidence, hits, risk)
  {
    hide MaxVariant;
    MaxReachesPercent(hits, 95);
    MaxReachesPercent(hits, 85);
    MaxReachesPercent(hits, 70);
  }

  // ---------- The candidate ----------

  /** The hash of the text, action, hits and AI review; and the JSON that records a reason. */
  datatype Hashing = Hashing(context: (string, string, seq<Hit>, Option<AIReview>) -> string, meta: string -> string)

  ghost predicate HashingOK(h: Hashing) {
    forall t, a, hs, ai :: h.context(t, a, hs, ai) != ""
  }

  function ContextOf(h: Hashing, text: string, r: Result): string {
    h.context(text, r.action, r.hits, r.ai)
  }

  function CandidateFor(lib: Lib, h: Hashing, p: Policy, text: string, r: Result, now: int): Case {
    var reason := ReasonFor(p, r);
    var variant := if r.action == "block" then 0.0 else MaxVariant(r.hits) as real / 100.0;
    Case(lib.caseID(ContextOf(h, text, r)), ContextOf(h, text, r), "pending", "", "", now, now, None,
         TemporaryAction(p, reason.aiScore), PriorityFor(reason.aiScore, variant, r.riskScore), "")
  }

  /** The event that opens a case; its note records the reason. */
  function Creation(h: Hashing, c: Case, reason: string): Event {
    Event(c.id, c.createdAt, "system", "created", "", c.status, h.meta(reason), "")
  }

  /** A result that is only logged, or not reviewed at all. */
  function Unqueued(p: Policy, r: Result): Result {
    if p.enabled && ReasonFor(p, r).reason != "" then
      r.(reviewStatus := LOG_ONLY, temporaryAction := LOG_ONLY, reviewReason := ReasonFor(p, r).reason)
    else r
  }

  /** The result after review, given the case it was attached to. */
  function WithCase(r: Result, reason: string, c: Case, isNew: bool): Result {
    r.(reviewStatus := if isNew then c.status else "deduplicated", reviewCaseID := c.id, temporaryAction := c.temporaryAction,
       reviewReason := reason, reviewPriority := c.priority,
       action := if c.temporaryAction == TEMPORARY_BLOCK then "block"
                 else if c.temporaryAction == TEMPORARY_ALLOW && r.action != "block" then "pass"
                 else r.action)
  }

  datatype Evaluation = Evaluation(result: Result, error: bool)

  /** The result is sent to the queue, and not just logged. */
  predicate Queued(p: Policy, r: Result) {
    p.enabled && ReasonFor(p, r).reason != "" && TemporaryAction(p, ReasonFor(p, r).aiScore) != LOG_ONLY
  }

  /** A result is queued if the policy is on, someone calls for a review, and it is not just logged. */
  lemma QueuedIff(p: Policy, r: Result)
    ensures Queued(p, r) <==>
            && p.enabled && r.action != "block" && p.uncertainDefault != "log_only"
            && (AICalls(p, r) || (p.variantReviewEnabled && VariantReaches(p, r.hits)))
  {
    hide AICalls, VariantReaches, ReasonFor;
    ReviewedIff(p, r);
  }

  /** A new case says what is done meanwhile, and how urgent it is. */
  lemma CandidateIs(lib: Lib, h: Hashing, p: Policy, text: string, r: Result, now: int)
    requires ReasonFor(p, r).reason != ""
    ensures var c := CandidateFor(lib, h, p, text, r, now);
            && TemporaryIs(p, Confidence(p, r), c.temporaryAction)
            && PriorityIs(c.priority, Confidence(p, r), r.hits, r.riskScore)
            && c.id == lib.caseID(c.contextHash) && c.contextHash == ContextOf(h, text, r)
            && c.status == "pending" && c.createdAt == now && c.updatedAt == now && c.decidedAt == None
  {
    hide PriorityFor, PriorityIs, MaxVariant, HasVariant;
    PriorityForIs(Confidence(p, r), r.hits, r.riskScore);
  }

  /** The action under a case's temporary action: it blocks, lets what does not block pass, or does
      nothing. */
  ghost predicate Applied(temporary: string, before: string, after: string) {
    && (temporary == "temporary_block" ==> after == "block")
    && (temporary == "temporary_allow" ==> after == if before == "block" then "block" else "pass")
    && (temporary !in ["temporary_block", "temporary_allow"] ==> after == before)
  }

  /** The result shows its case, and nothing else but the action has changed. */
  ghost predicate Attached(r: Result, c: Case, isNew: bool, reason: string, after: Result) {
    && Applied(c.temporaryAction, r.action, after.action)
    && after == r.(action := after.action, reviewStatus := if isNew then "pending" else "deduplicated", reviewCaseID := c.id,
                   temporaryAction := c.temporaryAction, reviewReason := reason, reviewPriority := c.priority)
  }

  /** A case for the same context that is no longer open. */
  ghost predicate ClosedCase(rows: seq<Case>, context: string) {
    exists i :: 0 <= i < |rows| && rows[i].contextHash == context && !IsOpen(rows[i])
  }

  /** The store refuses a candidate exactly when the case of its context has been closed. */
  lemma RefusedIffClosed(lib: Lib, db: Db, context: string)
    requires LibOK(lib) && DbOK(lib, db)
    ensures HasRow(db.rows, lib.caseID(context)) && !OpenCase(db.rows, context) <==> ClosedCase(db.rows, context)
    ensures !(OpenCase(db.rows, context) && ClosedCase(db.rows, context))
  {
    hide IsOpen, Chain, Replay, Log;
    forall i | 0 <= i < |db.rows| ensures db.rows[i].id == lib.caseID(context) <==> db.rows[i].contextHash == context {
      assert RowOK(lib, db, i);
    }
    if HasRow(db.rows, lib.caseID(context)) {
      var i :| 0 <= i < |db.rows| && db.rows[i].id == lib.caseID(context);
    }
    if j :| 0 <= j < |db.rows| && db.rows[j].contextHash == context {
      forall i | 0 <= i < |db.rows| && db.rows[i].contextHash == context ensures i == j {
        OneCasePerContext(lib, db, i, j);
      }
    }
  }

  /** Evaluate. What blocks, or calls for no review, is left alone. What is queued gets the open case of
      its context, or a new one; but once that case has been decided or escalated, evaluating the same
      text and verdict again is an error, and the temporary action is not applied. */
  method Evaluate(store: Store, h: Hashing, p: Policy, text: string, r: Result, now: int) returns (e: Evaluation)
    requires store.Inv() && LibOK(store.lib) && HashingOK(h)
    modifies store
    ensures store.Inv()
    ensures !Queued(p, r) ==> store.db == old(store.db) && !e.error && e.result == Unqueued(p, r)
    ensures !Queued(p, r) ==>
              e.result == if p.enabled && r.action != "block" && (AICalls(p, r) || (p.variantReviewEnabled && VariantReaches(p, r.hits)))
                          then r.(reviewStatus := "log_only", temporaryAction := "log_only", reviewReason := ReasonFor(p, r).reason)
                          else r
    ensures r.action == "block" ==> e.result == r
    ensures Queued(p, r) && store.faults == old(store.faults) ==> (e.error <==> ClosedCase(old(store.db).rows, h.context(text, r.action, r.hits, r.ai)))
    ensures e.error ==> store.db == old(store.db) && e.result.action == r.action
    ensures Queued(p, r) && !e.error ==>
              exists c, isNew ::
                && c in store.db.rows && IsOpen(c) && c.contextHash == h.context(text, r.action, r.hits, r.ai)
                && Attached(r, c, isNew, ReasonFor(p, r).reason, e.result)
                && (isNew ==> TemporaryIs(p, Confidence(p, r), c.temporaryAction)
                              && PriorityIs(c.priority, Confidence(p, r), r.hits, r.riskScore))
                && (isNew <==> |store.db.rows| > |old(store.db).rows|)
                && (isNew ==> c == CandidateFor(store.lib, h, p, text, r, now) && !OpenCase(old(store.db).rows, c.contextHash)
                              && store.db.events == old(store.db).events
                                 + [Event(c.id, now, "system", "created", "", "pending", h.meta(ReasonFor(p, r).reason), "")])
                && (!isNew ==> store.db == old(store.db))
  {
    hide DbOK, PriorityFor, PriorityIs, LibOK, TemporaryIs, MaxVariant, HasVariant, AICalls, VariantReaches;
    ReviewedIff(p, r);
    e := Evaluation(r, false);
    if !p.enabled {
      return;
    }
    var reason := ReasonFor(p, r);
    if reason.reason == "" {
      return;
    }
    if TemporaryAction(p, reason.aiScore) == LOG_ONLY {
      e := Evaluation(r.(reviewStatus := LOG_ONLY, temporaryAction := LOG_ONLY, reviewReason := reason.reason), false);
      return;
    }
    var c := CandidateFor(store.lib, h, p, text, r, now);
    CandidateIs(store.lib, h, p, text, r, now);
    RefusedIffClosed(store.lib, store.db, c.contextHash);
    var created := store.Create(c, Creation(h, c, reason.reason));
    if created == None {
      e := Evaluation(r.(reviewStatus := "creation_failed"), true);
      return;
    }
    var (found, isNew) := created.value;
    if isNew {
      assert store.db.rows[|store.db.rows| - 1] == c;
    }
    assert found in store.db.rows && IsOpen(found) && found.contextHash == c.contextHash;
    e := Evaluation(WithCase(r, reason.reason, found, isNew), false);
    assert Attached(r, found, isNew, reason.reason, e.result);
  }
}
