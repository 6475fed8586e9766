/** The signal extractor: the confidence score of a reply and the follow-up
    questions derived from a feature specification. */
module Signals {
  import opened Text
  import opened Model

  // ---------------------------------------------------------------------------
  // Confidence

  /** Words whose presence in the scored text lowers the confidence. */
  const HedgeWords: seq<string> := ["unclear", "confusing", "not sure"]

  function Max(a: real, b: real): real { if a >= b then a else b }

  function Min(a: real, b: real): real { if a <= b then a else b }

  /** The range of the jitter term `(random.random() - 0.5) * 0.1`. */
  predicate IsJitter(j: real)
  {
    -0.05 <= j < 0.05
  }

  /** The jitter term computed from one draw `u` of `random.random()`. */
  function JitterOf(u: real): (j: real)
    requires 0.0 <= u < 1.0
    ensures IsJitter(j)
  {
    (u - 0.5) * 0.1
  }

  /** `_score_confidence(persona, text)` with its random draw passed in as the
      jitter term `j`: a base of 0.55 adjusted by the persona and by hedge
      words in the text, jittered, and clamped to [0.05, 0.95]. */
  function ScoreConfidence(p: Persona, text: string, j: real): (r: real)
    ensures 0.05 <= r <= 0.95
  {
    var base0 := 0.55;
    var base1 := if p.techLiteracy == "expert" then base0 + 0.15 else base0;
    var base2 := if p.riskAversion == "high" then base1 - 0.05 else base1;
    var base3 := if ContainsAny(Lower(text), HedgeWords) then base2 - 0.2 else base2;
    Max(0.05, Min(0.95, base3 + j))
  }

  /** The score before jitter, written as a sum of independent adjustments. */
  function PriorScore(p: Persona, text: string): real
  {
    0.55
    + (if p.techLiteracy == "expert" then 0.15 else 0.0)
    - (if p.riskAversion == "high" then 0.05 else 0.0)
    - (if ContainsAny(Lower(text), HedgeWords) then 0.2 else 0.0)
  }

  /** For every jitter the source can draw the clamp never engages: the score
      is the prior plus the jitter, and lies in [0.25, 0.75). */
  lemma ClampInactive(p: Persona, text: string, j: real)
    requires IsJitter(j)
    ensures ScoreConfidence(p, text, j) == PriorScore(p, text) + j
    ensures 0.25 <= ScoreConfidence(p, text, j) < 0.75
  {
  }

  /** An expert who is not highly risk-averse, on text with no hedge word,
      scores 0.70 before jitter, so within [0.65, 0.75). */
  lemma ExpertWindow(p: Persona, text: string, j: real)
    requires IsJitter(j)
    requires p.techLiteracy == "expert" && p.riskAversion != "high"
    requires !ContainsAny(Lower(text), HedgeWords)
    ensures PriorScore(p, text) == 0.70
    ensures 0.65 <= ScoreConfidence(p, text, j) < 0.75
  {
  }

  /** A hedge word costs exactly 0.2, whatever the persona. */
  lemma HedgePenalty(p: Persona, plain: string, hedged: string, j: real)
    requires IsJitter(j)
    requires !ContainsAny(Lower(plain), HedgeWords) && ContainsAny(Lower(hedged), HedgeWords)
    ensures ScoreConfidence(p, hedged, j) == ScoreConfidence(p, plain, j) - 0.2
  {
  }

  /** High risk aversion costs exactly 0.05, all else equal. */
  lemma RiskPenalty(p: Persona, text: string, j: real)
    requires IsJitter(j) && p.riskAversion != "high"
    ensures ScoreConfidence(p.(riskAversion := "high"), text, j) == ScoreConfidence(p, text, j) - 0.05
  {
  }

  // ---------------------------------------------------------------------------
  // Follow-up questions

  const AnalyticsQuestion := "Which success metrics and target thresholds are defined?"
  const OnboardingQuestion := "Can users skip steps and finish later?"
  const TrialQuestion := "Is there a free trial or grace period before payment is required?"
  const AccessibilityQuestion := "Have you tested keyboard-only navigation and screen-reader labels?"
  const PrivacyQuestion := "What data is collected and how is it governed?"
  const JobQuestion := "What is the primary job-to-be-done for this feature?"

  /** The rule questions in rule order; `JobQuestion` is the fallback. */
  const RuleQuestions: seq<string> :=
    [AnalyticsQuestion, OnboardingQuestion, TrialQuestion, AccessibilityQuestion, PrivacyQuestion]

  const AccessibilityKeys: seq<string> := ["accessibility", "aria", "keyboard", "contrast", "wcag"]

  /** Which follow-up rules fire on the lower-cased text, in rule order. */
  function FollowupTriggers(low: string): (t: seq<bool>)
    ensures |t| == |RuleQuestions|
  {
    [ Contains(low, "analytics"),
      Contains(low, "onboarding"),
      Contains(low, "paywall") || Contains(low, "pricing") || Contains(low, "trial"),
      ContainsAny(low, AccessibilityKeys),
      Contains(low, "privacy") || Contains(low, "gdpr") ]
  }

  /** Python's `xs[:n]`. */
  function Take<T(==)>(xs: seq<T>, n: nat): (r: seq<T>)
    ensures |r| <= n && StartsWith(xs, r)
    ensures |xs| <= n ==> r == xs
    ensures |xs| > n ==> |r| == n
  {
    if |xs| <= n then xs else xs[..n]
  }

  /** `_extract_followups(persona, spec)`: the rules run in source order on
      the lower-cased spec, with the job-to-be-done question as fallback and
      the list cut to six. The persona is not consulted. */
  function ExtractFollowups(p: Persona, spec: string): (qs: seq<string>)
    ensures 1 <= |qs| <= 6
  {
    var low := Lower(spec);
    var qs1 := AppendIf([], Contains(low, "analytics"), AnalyticsQuestion);
    var qs2 := AppendIf(qs1, Contains(low, "onboarding"), OnboardingQuestion);
    var qs3 := AppendIf(qs2, Contains(low, "paywall") || Contains(low, "pricing") || Contains(low, "trial"),
      TrialQuestion);
    var qs4 := AppendIf(qs3, ContainsAny(low, AccessibilityKeys), AccessibilityQuestion);
    var qs5 := AppendIf(qs4, Contains(low, "privacy") || Contains(low, "gdpr"), PrivacyQuestion);
    var qs6 := if qs5 == [] then [JobQuestion] else qs5;
    Take(qs6, 6)
  }

  /** The list holds the questions of the rules that fire, in rule order, or
      just the job-to-be-done question when none fires. */
  lemma FollowupsSelect(p: Persona, spec: string)
    ensures var fired := Select(FollowupTriggers(Lower(spec)), RuleQuestions);
      ExtractFollowups(p, spec) == if fired == [] then [JobQuestion] else fired
  {
    var low := Lower(spec);
    var qs1 := AppendIf([], Contains(low, "analytics"), AnalyticsQuestion);
    var qs2 := AppendIf(qs1, Contains(low, "onboarding"), OnboardingQuestion);
    var qs3 := AppendIf(qs2, Contains(low, "paywall") || Contains(low, "pricing") || Contains(low, "trial"),
      TrialQuestion);
    var qs4 := AppendIf(qs3, ContainsAny(low, AccessibilityKeys), AccessibilityQuestion);
    var qs5 := AppendIf(qs4, Contains(low, "privacy") || Contains(low, "gdpr"), PrivacyQuestion);
    AppendFive(Contains(low, "analytics"), Contains(low, "onboarding"),
      Contains(low, "paywall") || Contains(low, "pricing") || Contains(low, "trial"),
      ContainsAny(low, AccessibilityKeys), Contains(low, "privacy") || Contains(low, "gdpr"),
      AnalyticsQuestion, OnboardingQuestion, TrialQuestion, AccessibilityQuestion, PrivacyQuestion);
  }

  lemma RuleQuestionsDistinct()
    ensures NoDuplicates(RuleQuestions + [JobQuestion])
    ensures NoDuplicates(RuleQuestions)
  {
    var all := RuleQuestions + [JobQuestion];
    assert |AnalyticsQuestion| == 56;
    assert forall i, j :: 0 <= i < j < |all| ==> |all[i]| != |all[j]| || all[i][0] != all[j][0];
  }

  /** Every substring some follow-up rule looks for. */
  const FollowupKeywords: seq<string> :=
    ["analytics", "onboarding", "paywall", "pricing", "trial"] + AccessibilityKeys + ["privacy", "gdpr"]

  /** Some rule fires exactly when one of the rule substrings occurs. */
  lemma TriggersIff(low: string)
    ensures (exists i :: 0 <= i < |RuleQuestions| && FollowupTriggers(low)[i]) <==> ContainsAny(low, FollowupKeywords)
  {
    var t := FollowupTriggers(low);
    var ks := FollowupKeywords;
    assert ks[0] == "analytics" && ks[1] == "onboarding" && ks[2] == "paywall" && ks[3] == "pricing";
    assert ks[4] == "trial" && ks[10] == "privacy" && ks[11] == "gdpr";
    assert forall i :: 0 <= i < 5 ==> ks[5 + i] == AccessibilityKeys[i];
    if ContainsAny(low, ks) {
      var i :| 0 <= i < |ks| && Contains(low, ks[i]);
      if i == 0 { assert t[0]; }
      else if i == 1 { assert t[1]; }
      else if i < 5 { assert t[2]; }
      else if i < 10 { assert Contains(low, AccessibilityKeys[i - 5]); assert t[3]; }
      else { assert t[4]; }
    }
    if exists i :: 0 <= i < |RuleQuestions| && t[i] {
      var i :| 0 <= i < |RuleQuestions| && t[i];
      if i == 0 { assert Contains(low, ks[0]); }
      else if i == 1 { assert Contains(low, ks[1]); }
      else if i == 2 {
        assert Contains(low, ks[2]) || Contains(low, ks[3]) || Contains(low, ks[4]);
      } else if i == 3 {
        var k :| 0 <= k < |AccessibilityKeys| && Contains(low, AccessibilityKeys[k]);
        assert Contains(low, ks[5 + k]);
      } else {
        assert Contains(low, ks[10]) || Contains(low, ks[11]);
      }
    }
  }

  /** The list is exactly the job-to-be-done question precisely when none of
      the rule substrings occurs in the lower-cased spec. */
  lemma FollowupsFallbackIff(p: Persona, spec: string)
    ensures ExtractFollowups(p, spec) == [JobQuestion] <==> !ContainsAny(Lower(spec), FollowupKeywords)
  {
    FollowupsSelect(p, spec);
    var t := FollowupTriggers(Lower(spec));
    var fired := Select(t, RuleQuestions);
    TriggersIff(Lower(spec));
    SelectEmptyIff(t, RuleQuestions);
    if fired != [] {
      SelectOnlyItems(t, RuleQuestions);
      RuleQuestionsDistinct();
      assert fired[0] in RuleQuestions;
      assert JobQuestion !in RuleQuestions by {
        var all := RuleQuestions + [JobQuestion];
        assert all[5] == JobQuestion;
        assert forall i :: 0 <= i < 5 ==> all[i] == RuleQuestions[i];
      }
    }
  }

  /** A rule's question is in the list exactly when that rule fires. */
  lemma FollowupMember(p: Persona, spec: string, i: int)
    requires 0 <= i < |RuleQuestions|
    ensures RuleQuestions[i] in ExtractFollowups(p, spec) <==> FollowupTriggers(Lower(spec))[i]
  {
    FollowupsSelect(p, spec);
    var t := FollowupTriggers(Lower(spec));
    var fired := Select(t, RuleQuestions);
    RuleQuestionsDistinct();
    SelectMember(t, RuleQuestions, i);
    if fired == [] {
      var all := RuleQuestions + [JobQuestion];
      assert all[i] == RuleQuestions[i] && all[5] == JobQuestion;
    }
  }

  /** Each question occurs at most once, and in rule order. */
  lemma FollowupsOrdered(p: Persona, spec: string)
    ensures IsSubseq(ExtractFollowups(p, spec), RuleQuestions + [JobQuestion])
    ensures NoDuplicates(ExtractFollowups(p, spec))
  {
    FollowupsSelect(p, spec);
    var t := FollowupTriggers(Lower(spec));
    var fired := Select(t, RuleQuestions);
    var all := RuleQuestions + [JobQuestion];
    RuleQuestionsDistinct();
    if fired == [] {
      assert all[5] == JobQuestion;
      assert IsSubseq([JobQuestion], all[5..]);
      SubseqOfTail([JobQuestion], all[4..]);
      SubseqOfTail([JobQuestion], all[3..]);
      SubseqOfTail([JobQuestion], all[2..]);
      SubseqOfTail([JobQuestion], all[1..]);
      SubseqOfTail([JobQuestion], all);
    } else {
      SelectSubseq(t, RuleQuestions);
      SubseqPrefix(fired, RuleQuestions, [JobQuestion]);
      SubseqNoDuplicates(fired, RuleQuestions);
    }
  }

  /** An empty spec gets the single job-to-be-done question. */
  lemma EmptySpecFollowups(p: Persona)
    ensures ExtractFollowups(p, "") == [JobQuestion]
  {
    FollowupsSelect(p, "");
    assert Lower("") == "";
    var t := FollowupTriggers("");
    assert !ContainsAny("", AccessibilityKeys) by {
      forall i | 0 <= i < |AccessibilityKeys| ensures !Contains("", AccessibilityKeys[i]) {
        assert |AccessibilityKeys[i]| > 0;
      }
    }
    assert forall i :: 0 <= i < |t| ==> !t[i];
    SelectEmptyIff(t, RuleQuestions);
  }

  /** A spec that mentions a paywall, pricing or a trial and GDPR or privacy,
      and nothing the other rules look for (the shape of "Add a paywall with
      a 7-day trial and GDPR-compliant data export"), gets the trial question
      followed by the data-governance question. */
  lemma TrialThenPrivacy(p: Persona, spec: string)
    requires var low := Lower(spec);
      (Contains(low, "paywall") || Contains(low, "pricing") || Contains(low, "trial"))
      && (Contains(low, "privacy") || Contains(low, "gdpr"))
      && !Contains(low, "analytics") && !Contains(low, "onboarding") && !ContainsAny(low, AccessibilityKeys)
    ensures ExtractFollowups(p, spec) == [TrialQuestion, PrivacyQuestion]
  {
    FollowupsSelect(p, spec);
    var t := FollowupTriggers(Lower(spec));
    SelectFive(t, RuleQuestions);
  }

  /** Matching is by substring: a plural still matches its keyword. */
  lemma PluralStillMatches()
    ensures Contains("paywalls", "paywall")
  {
    assert "paywalls"[..7] == "paywall";
  }
}
