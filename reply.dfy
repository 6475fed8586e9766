/** The heuristic reply generator: keyword and persona rules that collect
    concerns, kudos and suggestions, their rendering as reply text, and the
    reasoning record attached to each persona reply. */
module Reply {
  import opened Text
  import opened Model
  import opened Signals

  // ---------------------------------------------------------------------------
  // Rule outputs

  const OnboardingConcern := "Onboarding may be too long; consider progressive disclosure."
  const MobileConcern := "Ensure tap targets are >= 44px and content is responsive."
  const PaywallConcern := "Hard paywalls can increase drop-off; test a trial or freemium."
  const PrivacyConcern := "Clarify data processing, retention, and opt-out; add a DPIA summary."
  const SecurityConcern := "Need SSO/MFA, audit logs, and data retention controls."
  const ScreenReaderConcern := "Verify no keyboard traps; test with VoiceOver/NVDA."

  const DashboardSuggestion := "Surface the top 3 KPIs above the fold; defer advanced charts."
  const AccessibilitySuggestion := "Add aria-labels, visible focus states, and non-color cues to meet WCAG 2.2 AA."
  const ApiSuggestion := "Provide API endpoints and bulk export options for power users."
  const MetricsSuggestion := "Define success metrics and an A/B test plan."

  const CasualKudos := "Looks fun if visuals stay bold with quick motion affordances."

  /** The reply when no rule has anything to say. */
  const FallbackReply := "Looks promising; " + "would like to test a clickable prototype."

  /** Concerns and suggestions in the order their rules are evaluated. */
  const ConcernRules: seq<string> :=
    [OnboardingConcern, MobileConcern, PaywallConcern, PrivacyConcern, SecurityConcern, ScreenReaderConcern]
  const SuggestionRules: seq<string> :=
    [DashboardSuggestion, AccessibilitySuggestion, ApiSuggestion, MetricsSuggestion]

  const AccessKeys: seq<string> := ["access", "aria", "keyboard", "contrast", "wcag", "color"]
  const PricingKeys: seq<string> := ["paywall", "pricing", "trial"]

  /** The keywords reported in `keywordsHit`, in reporting order. */
  const TrackedKeywords: seq<string> :=
    ["onboarding", "dashboard", "mobile", "access", "paywall", "pricing", "aria", "privacy", "gdpr", "keyboard", "contrast"]

  const Assumptions: seq<string> := ["User intent inferred from provided spec", "No live usability data"]

  /** The three lists a reply is composed from. */
  datatype Commentary = Commentary(concerns: seq<string>, kudos: seq<string>, suggestions: seq<string>)

  // ---------------------------------------------------------------------------
  // Rule table

  /** Which concern rules fire, in rule order, for the lower-cased message
      text `low`. The archetype test "starts with or contains 'security'" is
      stated here as plain containment. */
  function ConcernTriggers(p: Persona, low: string): (t: seq<bool>)
    ensures |t| == |ConcernRules|
  {
    var arch := Lower(p.archetype);
    [ Contains(low, "onboarding") || Contains(low, "signup"),
      Contains(low, "mobile"),
      ContainsAny(low, PricingKeys),
      Contains(low, "privacy") || Contains(low, "gdpr"),
      Contains(arch, "security"),
      Contains(arch, "screen") || Contains(arch, "accessibility") ]
  }

  /** Which suggestion rules fire, in rule order. */
  function SuggestionTriggers(p: Persona, low: string): (t: seq<bool>)
    ensures |t| == |SuggestionRules|
  {
    [ Contains(low, "dashboard"),
      ContainsAny(low, AccessKeys),
      Contains(low, "api") || Contains(low, "export"),
      Contains(Lower(p.archetype), "product manager") ]
  }

  /** Whether the single kudos rule fires. */
  predicate KudosTrigger(p: Persona)
  {
    Contains(Lower(p.archetype), "gen z") || p.tone == "casual"
  }

  // ---------------------------------------------------------------------------
  // Commentary

  /** The concern rules of `_heuristic_persona_reply`, in source order. */
  function Concerns(p: Persona, low: string): (concerns: seq<string>)
    ensures concerns == Select(ConcernTriggers(p, low), ConcernRules)
  {
    var arch := Lower(p.archetype);
    var concerns1 := AppendIf([], Contains(low, "onboarding") || Contains(low, "signup"), OnboardingConcern);
    var concerns2 := AppendIf(concerns1, Contains(low, "mobile"), MobileConcern);
    var concerns3 := AppendIf(concerns2, ContainsAny(low, PricingKeys), PaywallConcern);
    var concerns4 := AppendIf(concerns3, Contains(low, "privacy") || Contains(low, "gdpr"), PrivacyConcern);
    var security := StartsWith(arch, "security") || Contains(arch, "security");
    assert security == Contains(arch, "security");
    var concerns5 := AppendIf(concerns4, security, SecurityConcern);
    var concerns6 := AppendIf(concerns5, Contains(arch, "screen") || Contains(arch, "accessibility"), ScreenReaderConcern);
    AppendSix(Contains(low, "onboarding") || Contains(low, "signup"), Contains(low, "mobile"),
      ContainsAny(low, PricingKeys), Contains(low, "privacy") || Contains(low, "gdpr"),
      Contains(arch, "security"), Contains(arch, "screen") || Contains(arch, "accessibility"),
      OnboardingConcern, MobileConcern, PaywallConcern, PrivacyConcern, SecurityConcern, ScreenReaderConcern);
    concerns6
  }

  /** The suggestion rules of `_heuristic_persona_reply`, in source order. */
  function Suggestions(p: Persona, low: string): (suggestions: seq<string>)
    ensures suggestions == Select(SuggestionTriggers(p, low), SuggestionRules)
  {
    var suggestions1 := AppendIf([], Contains(low, "dashboard"), DashboardSuggestion);
    var suggestions2 := AppendIf(suggestions1, ContainsAny(low, AccessKeys), AccessibilitySuggestion);
    var suggestions3 := AppendIf(suggestions2, Contains(low, "api") || Contains(low, "export"), ApiSuggestion);
    var suggestions4 := AppendIf(suggestions3, Contains(Lower(p.archetype), "product manager"), MetricsSuggestion);
    AppendFour(Contains(low, "dashboard"), ContainsAny(low, AccessKeys),
      Contains(low, "api") || Contains(low, "export"), Contains(Lower(p.archetype), "product manager"),
      DashboardSuggestion, AccessibilitySuggestion, ApiSuggestion, MetricsSuggestion);
    suggestions4
  }

  /** The rule pass of `_heuristic_persona_reply` on the lower-cased text
      `low`: eleven independent rules, each appending to one of three lists.
      Each list holds exactly the outputs of its fired rules, in rule order.
      The rules of different lists do not interact, so evaluating them list
      by list gives the same lists as the source's interleaved order. */
  function Commentate(p: Persona, low: string): (c: Commentary)
    ensures c.concerns == Select(ConcernTriggers(p, low), ConcernRules)
    ensures c.suggestions == Select(SuggestionTriggers(p, low), SuggestionRules)
    ensures c.kudos == Opt(KudosTrigger(p), CasualKudos)
  {
    var kudos := AppendIf([], Contains(Lower(p.archetype), "gen z") || p.tone == "casual", CasualKudos);
    Commentary(Concerns(p, low), kudos, Suggestions(p, low))
  }

  lemma RuleTextsDistinct()
    ensures NoDuplicates(ConcernRules) && NoDuplicates(SuggestionRules)
  {
    var cs, ss := ConcernRules, SuggestionRules;
    assert forall i, j :: 0 <= i < j < |cs| ==> |cs[i]| != |cs[j]| || cs[i][0] != cs[j][0];
    assert forall i, j :: 0 <= i < j < |ss| ==> |ss[i]| != |ss[j]| || ss[i][0] != ss[j][0];
  }

  /** A concern is raised exactly when its rule fires; the concerns come in
      rule order without repetition. */
  lemma ConcernsByRule(p: Persona, low: string, i: int)
    requires 0 <= i < |ConcernRules|
    ensures ConcernRules[i] in Commentate(p, low).concerns <==> ConcernTriggers(p, low)[i]
    ensures IsSubseq(Commentate(p, low).concerns, ConcernRules)
    ensures NoDuplicates(Commentate(p, low).concerns)
  {
    RuleTextsDistinct();
    SelectMember(ConcernTriggers(p, low), ConcernRules, i);
    SelectSubseq(ConcernTriggers(p, low), ConcernRules);
    SubseqNoDuplicates(Commentate(p, low).concerns, ConcernRules);
  }

  /** A suggestion is made exactly when its rule fires; the suggestions come
      in rule order without repetition. */
  lemma SuggestionsByRule(p: Persona, low: string, i: int)
    requires 0 <= i < |SuggestionRules|
    ensures SuggestionRules[i] in Commentate(p, low).suggestions <==> SuggestionTriggers(p, low)[i]
    ensures IsSubseq(Commentate(p, low).suggestions, SuggestionRules)
    ensures NoDuplicates(Commentate(p, low).suggestions)
  {
    RuleTextsDistinct();
    SelectMember(SuggestionTriggers(p, low), SuggestionRules, i);
    SelectSubseq(SuggestionTriggers(p, low), SuggestionRules);
    SubseqNoDuplicates(Commentate(p, low).suggestions, SuggestionRules);
  }

  // ---------------------------------------------------------------------------
  // Rendering

  const LikeLabel := "**What I like:** "
  const ConcernsLabel := "**Concerns:** "
  const SuggestionsLabel := "**Suggestions:** "
  const BlockSeparator := "\n\n"
  const ItemSeparator := "; "

  /** A rendered block: its heading and its items joined by "; ". */
  function Block(heading: string, items: seq<string>): (block: string)
    ensures StartsWith(block, heading)
  {
    heading + Join(items, ItemSeparator)
  }

  /** The summary blocks present: kudos, then concerns, then suggestions,
      each only when its list is non-empty. */
  function Summary(c: Commentary): (blocks: seq<string>)
    ensures |blocks| == (if c.kudos != [] then 1 else 0) + (if c.concerns != [] then 1 else 0)
      + (if c.suggestions != [] then 1 else 0)
    ensures blocks == [] <==> c.kudos == [] && c.concerns == [] && c.suggestions == []
    ensures forall i :: 0 <= i < |blocks| ==>
      blocks[i] in [Block(LikeLabel, c.kudos), Block(ConcernsLabel, c.concerns), Block(SuggestionsLabel, c.suggestions)]
  {
    var summary1 := AppendIf([], c.kudos != [], Block(LikeLabel, c.kudos));
    var summary2 := AppendIf(summary1, c.concerns != [], Block(ConcernsLabel, c.concerns));
    AppendIf(summary2, c.suggestions != [], Block(SuggestionsLabel, c.suggestions))
  }

  /** The reply text: the summary blocks separated by a blank line, or the
      fallback sentence when there is nothing to say. */
  function Render(c: Commentary): (reply: string)
    ensures reply == FallbackReply <==> c.kudos == [] && c.concerns == [] && c.suggestions == []
  {
    var blocks := Summary(c);
    var summary := if blocks == [] then [FallbackReply] else blocks;
    var reply := Join(summary, BlockSeparator);
    JoinStartsWithFirst(summary, BlockSeparator);
    assert blocks == [] <==> c.kudos == [] && c.concerns == [] && c.suggestions == [];
    assert blocks != [] ==> |blocks[0]| > 0 && blocks[0][0] == '*' && reply[0] == '*';
    assert FallbackReply[0] == 'L';
    reply
  }

  /** The layout of every non-empty case: the blocks present, in the order
      kudos, concerns, suggestions, separated by one blank line. */
  lemma RenderLayout(c: Commentary)
    ensures var k, n, s := Block(LikeLabel, c.kudos), Block(ConcernsLabel, c.concerns), Block(SuggestionsLabel, c.suggestions);
      var kb, nb, sb := c.kudos != [], c.concerns != [], c.suggestions != [];
      var r := Render(c);
      && (kb && nb && sb ==> r == k + BlockSeparator + n + BlockSeparator + s)
      && (kb && nb && !sb ==> r == k + BlockSeparator + n)
      && (kb && !nb && sb ==> r == k + BlockSeparator + s)
      && (!kb && nb && sb ==> r == n + BlockSeparator + s)
      && (kb && !nb && !sb ==> r == k)
      && (!kb && nb && !sb ==> r == n)
      && (!kb && !nb && sb ==> r == s)
  {
    var k, n, s := Block(LikeLabel, c.kudos), Block(ConcernsLabel, c.concerns), Block(SuggestionsLabel, c.suggestions);
    var kb, nb, sb := c.kudos != [], c.concerns != [], c.suggestions != [];
    if kb && nb && sb {
      assert Summary(c) == [k, n] + [s];
      JoinSnoc([k, n], s, BlockSeparator);
      assert [k, n] == [k] + [n];
      JoinSnoc([k], n, BlockSeparator);
    } else if kb && nb {
      assert Summary(c) == [k] + [n];
      JoinSnoc([k], n, BlockSeparator);
    } else if kb && sb {
      assert Summary(c) == [k] + [s];
      JoinSnoc([k], s, BlockSeparator);
    } else if nb && sb {
      assert Summary(c) == [n] + [s];
      JoinSnoc([n], s, BlockSeparator);
    } else if kb {
      assert Summary(c) == [k];
    } else if nb {
      assert Summary(c) == [n];
    } else if sb {
      assert Summary(c) == [s];
    }
  }

  // ---------------------------------------------------------------------------
  // Reasoning record

  /** `[k for k in keys if k in low]`. */
  function KeywordsHit(low: string, keys: seq<string>): (hits: seq<string>)
    ensures IsSubseq(hits, keys)
    ensures forall k :: k in hits <==> k in keys && Contains(low, k)
  {
    if keys == [] then []
    else
      var rest := KeywordsHit(low, keys[1..]);
      if Contains(low, keys[0]) then
        assert ([keys[0]] + rest)[1..] == rest;
        [keys[0]] + rest
      else
        SubseqOfTail(rest, keys);
        rest
  }

  /** `_heuristic_persona_reply(persona, user_msg, feature_spec)` with the
      confidence draw passed in as `j`: the rendered commentary on the
      lower-cased `user_msg + " " + feature_spec`, and its reasoning record. */
  function HeuristicReply(p: Persona, userMsg: string, spec: string, j: real): (r: (string, Meta))
    ensures var low := Lower(userMsg + " " + spec);
      r.0 == Render(Commentate(p, low))
    ensures r.1.Reasoning?
    ensures StartsWith(p.traits, r.1.salientTraits)
    ensures |p.traits| <= 3 ==> r.1.salientTraits == p.traits
    ensures |p.traits| > 3 ==> |r.1.salientTraits| == 3
    ensures r.1.assumptions == Assumptions
    ensures IsSubseq(r.1.keywordsHit, TrackedKeywords)
    ensures forall k :: k in r.1.keywordsHit <==> k in TrackedKeywords && Contains(Lower(userMsg + " " + spec), k)
    ensures r.1.confidence == ScoreConfidence(p, userMsg, j)
    ensures 0.05 <= r.1.confidence <= 0.95
    ensures r.1.followUps == ExtractFollowups(p, spec)
  {
    var low := Lower(userMsg + " " + spec);
    var c := Commentate(p, low);
    var confidence := ScoreConfidence(p, userMsg, j);
    var followups := ExtractFollowups(p, spec);
    var reasoning := Reasoning(Take(p.traits, 3), Assumptions, KeywordsHit(low, TrackedKeywords), confidence, followups);
    (Render(c), reasoning)
  }

  // ---------------------------------------------------------------------------
  // Properties relating the parts

  /** Each tracked keyword fires at least one concern or suggestion rule. */
  lemma TrackedKeywordFires(p: Persona, low: string, i: int)
    requires 0 <= i < |TrackedKeywords|
    ensures Contains(low, TrackedKeywords[i]) ==>
      Commentate(p, low).concerns != [] || Commentate(p, low).suggestions != []
  {
    var ct, st := ConcernTriggers(p, low), SuggestionTriggers(p, low);
    var k := TrackedKeywords[i];
    if Contains(low, k) {
      if i == 0 {
        assert ct[0];
      } else if i == 1 {
        assert st[0];
      } else if i == 2 {
        assert ct[1];
      } else if i == 3 {
        assert AccessKeys[0] == k;
        assert st[1];
      } else if i == 4 || i == 5 {
        assert PricingKeys[i - 4] == k;
        assert ct[2];
      } else if i == 6 {
        assert AccessKeys[1] == k;
        assert st[1];
      } else if i == 7 || i == 8 {
        assert ct[3];
      } else {
        assert AccessKeys[i - 7] == k;
        assert st[1];
      }
      SelectEmptyIff(ct, ConcernRules);
      SelectEmptyIff(st, SuggestionRules);
    }
  }

  /** A fallback reply reports no keyword hits: every tracked keyword would
      have produced a concern or a suggestion. */
  lemma FallbackHitsNothing(p: Persona, userMsg: string, spec: string, j: real)
    ensures HeuristicReply(p, userMsg, spec, j).0 == FallbackReply ==>
      HeuristicReply(p, userMsg, spec, j).1.keywordsHit == []
  {
    var low := Lower(userMsg + " " + spec);
    var hits := HeuristicReply(p, userMsg, spec, j).1.keywordsHit;
    if hits != [] {
      assert hits[0] in TrackedKeywords && Contains(low, hits[0]);
      var i :| 0 <= i < |TrackedKeywords| && TrackedKeywords[i] == hits[0];
      TrackedKeywordFires(p, low, i);
    }
  }

  /** A keyword of the spec is visible to the reply rules whatever the
      prompting message is. */
  lemma SpecKeywordReachesRules(userMsg: string, spec: string, k: string)
    requires Contains(Lower(spec), k)
    ensures Contains(Lower(userMsg + " " + spec), k)
  {
    LowerAppend(userMsg + " ", spec);
    ContainsInfix(Lower(userMsg + " "), Lower(spec), "", k);
    assert Lower(userMsg + " ") + Lower(spec) + "" == Lower(userMsg + " " + spec);
  }

  /** An onboarding spec both raises the onboarding concern and asks whether
      steps can be skipped, in every reply of the conversation. */
  lemma OnboardingSpecIsSeenTwice(p: Persona, userMsg: string, spec: string)
    requires Contains(Lower(spec), "onboarding")
    ensures OnboardingConcern in Commentate(p, Lower(userMsg + " " + spec)).concerns
    ensures OnboardingQuestion in ExtractFollowups(p, spec)
  {
    SpecKeywordReachesRules(userMsg, spec, "onboarding");
    ConcernsByRule(p, Lower(userMsg + " " + spec), 0);
    FollowupMember(p, spec, 1);
  }
}
