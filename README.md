# Persona feedback simulator: the heuristic conversation engine

This is a Dafny model of the offline engine in `simulation_core.py`. The engine stages a short review
conversation between a product team ("user") and a simulated persona. Without
an agent library it answers with keyword rules, and it works as follows:

- **Confidence.** It scores its confidence with a fixed base, persona and hedge-word adjustments
  and a random jitter, clamped to [0.05, 0.95].
- **Follow-up questions.** It derives them from substrings of the feature spec, with a
  job-to-be-done question as the fallback.
- **Replies.** It composes each reply from independent concern, kudos and suggestion rules.
  The reply is rendered as "What I like", "Concerns" and "Suggestions" blocks, or as a fixed
  fallback sentence.
- **Reasoning record.** It attaches one to every reply: the salient traits, the fixed
  assumptions, the tracked keywords hit, the confidence and the follow-ups.
- **Simulation.** It runs `max(1, turns)` rounds. The first round answers an opener that quotes the
  title and spec. Each later round asks a follow-up drawn from the first reply's list.
- **Markdown.** It writes the conversation as a Markdown document.

Modules, one per concern of the source:

- `Text` (`text.dfy`): ASCII `str.lower`, substring containment `in`, ASCII `str.strip`,
  `str.join`, and the ordered-selection helpers the rule passes are specified with.
- `Model` (`model.dfy`): `Persona`, `Role`, `Meta`, `Message` and `Conversation`.
  `Meta` is either the empty dict or a reasoning record.
- `Signals` (`signals.dfy`): `_score_confidence` and `_extract_followups`.
- `Reply` (`reply.dfy`): `_heuristic_persona_reply`.
- `Engine` (`engine.dfy`): the heuristic branch of `SimulationEngine.simulate`, as a method with
  a loop proved against the `Transcript` function.
- `Markdown` (`markdown.dfy`): `Conversation.to_markdown`, as a method with a loop proved against
  the `Document` function.

Randomness becomes explicit inputs:

- `jitters[r]` is the jitter `(random.random() - 0.5) * 0.1` of round `r`. `Simulate` requires
  every jitter to be in the range [-0.05, 0.05) that this expression can produce.
- `choices[r - 1]` is the index `random.choice` picks before round `r`.

Each reply's confidence draw is passed as `j`.

## Model

| member | source | states |
|---|---|---|
| Signals.ScoreConfidence | simulation_core.py:57-65 | the confidence lies in [0.05, 0.95] for every persona, text and jitter |
| Signals.JitterOf | simulation_core.py:65 | the jitter `(u - 0.5) * 0.1` of a draw `u` in [0, 1) lies in [-0.05, 0.05) |
| Signals.ClampInactive | simulation_core.py:57-65 | for every jitter the source can draw, the clamp never engages: the score is the prior plus the jitter and lies in [0.25, 0.75) |
| Signals.ExpertWindow | simulation_core.py:57-65 | an expert who is not highly risk-averse, on text without hedge words, has prior 0.70 and scores in [0.65, 0.75) |
| Signals.HedgePenalty | simulation_core.py:63-64 | a hedge word in the lower-cased text lowers the score by exactly 0.2 |
| Signals.RiskPenalty | simulation_core.py:61-62 | high risk aversion lowers the score by exactly 0.05, all else equal |
| Signals.ExtractFollowups | simulation_core.py:67-82 | the follow-up list always has between 1 and 6 questions |
| Signals.FollowupTriggers | simulation_core.py:70-79 | the five follow-up rule guards in rule order, each a substring test on the lower-cased spec, one flag per rule question |
| Signals.Take | simulation_core.py:82 | `xs[:n]` is a prefix of `xs` of length `min(|xs|, n)`, and is `xs` itself when `|xs| <= n` |
| Signals.FollowupsSelect | simulation_core.py:67-82 | the list is the questions of the fired rules in rule order, or the job-to-be-done question alone when none fires |
| Signals.FollowupsFallbackIff | simulation_core.py:70-81 | the list is exactly the job-to-be-done question if and only if none of the rule substrings occurs in the lower-cased spec |
| Signals.FollowupMember | simulation_core.py:70-79 | a rule's question is in the list if and only if that rule fires |
| Signals.FollowupsOrdered | simulation_core.py:70-81 | the list is an ordered sub-list of the rule questions followed by the fallback, without repetition |
| Signals.EmptySpecFollowups | simulation_core.py:80-81 | an empty spec gets exactly the job-to-be-done question |
| Signals.TrialThenPrivacy | simulation_core.py:74-79 | a spec hitting only the paywall/pricing/trial and privacy/gdpr rules gets the trial question followed by the data-governance question |
| Signals.PluralStillMatches | simulation_core.py:74 | matching is by substring, so "paywalls" matches "paywall" |
| Reply.ConcernTriggers | simulation_core.py:88-107 | the six concern rule guards in rule order, one flag per concern text; the security guard is plain containment in the lower-cased archetype |
| Reply.SuggestionTriggers | simulation_core.py:90-105 | the four suggestion rule guards in rule order, one flag per suggestion text |
| Reply.KudosTrigger | simulation_core.py:108 | the kudos rule fires when the lower-cased archetype contains "gen z" or the tone is "casual" |
| Reply.Concerns | simulation_core.py:88-107 | the concerns are exactly the outputs of the fired concern rules, in source order |
| Reply.Suggestions | simulation_core.py:90-105 | the suggestions are exactly the outputs of the fired suggestion rules, in source order |
| Reply.Commentate | simulation_core.py:86-109 | the three lists hold exactly the fired rules' outputs in rule order; the kudos list holds the casual kudos exactly when the archetype has "gen z" or the tone is "casual" |
| Reply.ConcernsByRule | simulation_core.py:88-107 | a concern is raised if and only if its rule fires; concerns come in rule order without repetition |
| Reply.SuggestionsByRule | simulation_core.py:90-105 | a suggestion is made if and only if its rule fires; suggestions come in rule order without repetition |
| Reply.Block | simulation_core.py:115-117 | a summary block starts with its heading, followed by its items joined by "; " |
| Reply.Summary | simulation_core.py:114-117 | one block per non-empty list, so none exactly when all three lists are empty, each block being the kudos, concerns or suggestions block |
| Reply.Render | simulation_core.py:114-128 | the reply is the fallback sentence if and only if all three lists are empty |
| Reply.RenderLayout | simulation_core.py:114-128 | every non-empty case renders the present blocks in the order kudos, concerns, suggestions, separated by a blank line, each block's items joined by "; " |
| Reply.KeywordsHit | simulation_core.py:124 | the hits are an ordered sub-list of the keywords, holding a keyword if and only if it occurs in the text |
| Reply.HeuristicReply | simulation_core.py:84-129 | the reply text renders the commentary on `lower(user_msg + " " + spec)`; the reasoning record has `traits[:3]`, the two fixed assumptions, the tracked keywords hit in the text in listed order, the scored confidence in [0.05, 0.95] and the spec's follow-ups |
| Reply.TrackedKeywordFires | simulation_core.py:88-101 | each of the 11 tracked keywords, found in the text, fires a concern or a suggestion rule |
| Reply.FallbackHitsNothing | simulation_core.py:118-124 | a fallback reply reports no keyword hits |
| Reply.SpecKeywordReachesRules | simulation_core.py:85 | a keyword of the spec is seen by the rules whatever the prompting message |
| Reply.OnboardingSpecIsSeenTwice | simulation_core.py:72-73 | an onboarding spec raises the onboarding concern and asks whether steps can be skipped |
| Engine.Rounds | simulation_core.py:162-164 | the run has `max(1, turns)` rounds: `turns` when `turns >= 1`, and exactly one otherwise |
| Engine.StoredTitle | simulation_core.py:139 | an all-space title is stored as "Untitled Feature"; any other is stored stripped, non-empty and without surrounding space |
| Engine.BlankTitleDefaults | simulation_core.py:139 | a title of only whitespace is stored as the default title |
| Engine.StoredTitleIdempotent | simulation_core.py:139 | storing a stored title again changes nothing |
| Engine.Opener | simulation_core.py:144 | the opening user message: the fixed template around the raw, unstripped title and spec |
| Engine.ReplyMessage | simulation_core.py:162-163 | a heuristic reply is a persona message with a reasoning record, the spec's follow-ups and confidence in range |
| Engine.Responder | simulation_core.py:162-168 | the persona's side of a heuristic run: the heuristic reply message to a prompt under a given jitter |
| Engine.Transcript | simulation_core.py:145-168 | the messages of `rounds` rounds: the opener and its reply, then per later round the chosen question and the reply to it, appended in order |
| Engine.Simulate | simulation_core.py:135-168 | the conversation stores the given id, time, persona and seed, the stripped title (or the default) and the stripped spec; its messages are the transcript of `Rounds(turns)` rounds, `2 * Rounds(turns)` messages |
| Engine.TranscriptLength | simulation_core.py:161-169 | a run of `r` rounds has `2 * r` messages |
| Engine.TranscriptPrefix | simulation_core.py:164-168 | a shorter run is a prefix of a longer run with the same draws, since messages are only appended |
| Engine.TranscriptAt | simulation_core.py:145-168 | message 0 is the opener; every other even message is the question chosen for that round; every odd message is the response to the message before it with that round's jitter |
| Engine.TranscriptShape | simulation_core.py:145-168 | roles alternate starting with the user and ending with the persona; user messages carry no metadata and replies do; every later question is in the follow-up list of the reply just before it |
| Engine.ResponderReplies | simulation_core.py:162-168 | the heuristic responder answers every prompt with the heuristic reply, in range, suggesting the spec's follow-ups |
| Engine.RunShape | simulation_core.py:145-168 | for any responder that suggests `qs`: roles alternate from the opener, only replies carry metadata, and every later question is in the first reply's follow-ups |
| Engine.SimulatedRun | simulation_core.py:145-168 | the heuristic run alternates user and persona messages from the opener to a final reply; only the replies carry metadata; every later question is one of the first reply's follow-ups, which are the spec's |
| Engine.OpenerQuotesSpec | simulation_core.py:144 | the opener quotes the raw spec, so every keyword of the spec reaches the first reply |
| Markdown.NatToString | simulation_core.py:48 | the numeral is a non-empty string of digits, with no leading zero except for 0 itself |
| Markdown.IntToString | simulation_core.py:48 | the numeral is non-empty and starts with '-' if and only if the number is negative |
| Markdown.IntToStringRoundTrip | simulation_core.py:48 | the seed written in the run information parses back to the seed |
| Markdown.Header | simulation_core.py:47 | the title line naming the feature title, the persona name and its archetype |
| Markdown.RunInfo | simulation_core.py:48 | the creation time and seed lines followed by the rule |
| Markdown.Speaker | simulation_core.py:51 | "👤 User" for user messages, otherwise the persona's name after the test-tube mark |
| Markdown.DetailsBlock | simulation_core.py:54 | the collapsible `<details>` block around the encoder's JSON text of a message's metadata |
| Markdown.SpeakerLine | simulation_core.py:52 | the bold speaker label, then the message content and a blank line |
| Markdown.MessageBlock | simulation_core.py:52-54 | the speaker line, then the collapsible JSON block when the message has metadata |
| Markdown.Body | simulation_core.py:49-54 | the blocks of the messages concatenated in message order |
| Markdown.Document | simulation_core.py:47-55 | header, then run information, then body |
| Markdown.ToMarkdown | simulation_core.py:46-55 | the output is the header, the run information and one block per message, in message order |
| Markdown.BodyAppend | simulation_core.py:50-54 | rendering distributes over concatenating message lists |
| Markdown.BodySplit | simulation_core.py:50-54 | the body is the blocks before message `i`, then message `i`'s block, then the blocks after it |
| Markdown.BlockInBody | simulation_core.py:50-54 | every message's block occurs in the body |
| Markdown.ContentInBlock | simulation_core.py:52 | a message's block shows its content |
| Markdown.MessageInDocument | simulation_core.py:46-55 | message `i` sits between the blocks of the earlier and later messages, and its content is in the document |
| Markdown.DocumentOpens | simulation_core.py:47-48 | the document starts with the header and the run information, and shows the seed |
| Markdown.MetadataBlock | simulation_core.py:52-54 | a message without metadata renders as just its speaker line; one with metadata adds a details block holding the encoder's text |
| Text.Lower | simulation_core.py:69 | ASCII lower-casing keeps the length and maps each character independently |
| Text.StartsWith | simulation_core.py:102 | `s.startswith(p)`: the first `len(p)` elements of `s` are `p` |
| Text.Contains | simulation_core.py:70-79 | `k in s`: `k` is a prefix of `s` or of one of its suffixes |
| Text.ContainsAny | simulation_core.py:63-96 | `any(k in s for k in keys)`: some keyword of the list occurs in the text |
| Text.ContainsIff | simulation_core.py:70 | `k in s` holds if and only if `k` occurs at some position of `s` |
| Text.IsSpace | simulation_core.py:139-140 | the ASCII characters `str.isspace` accepts, which `strip()` removes: codes 9-13 and 28-32 |
| Text.Strip | simulation_core.py:139-140 | `s.strip()` on ASCII whitespace: the leading and the trailing whitespace run removed |
| Text.AppendIf | simulation_core.py:70-117 | `if cond: xs.append(x)`: `xs` followed by `x` when the condition holds, `xs` otherwise |
| Text.Join | simulation_core.py:115-128 | `sep.join(xs)`: the items in order with `sep` between neighbours |
| Text.StripSlice | simulation_core.py:139-140 | `s.strip()` is a slice of `s` with only whitespace around it, that starts and ends with non-whitespace when non-empty |
| Text.StripEmptyIff | simulation_core.py:139 | the stripped text is empty if and only if the text is all whitespace |
| Text.StripIdempotent | simulation_core.py:140 | stripping twice is stripping once |

## Left out

- The TinyTroupe branch (`simulation_core.py:7-12`, `147-160`) is not modelled. It calls a foreign
  agent library with network credentials. For `turns >= 1` it ends with one more user message than
  the heuristic branch; for `turns < 1` it holds only the opener.
- The random generator's state and seeding are not modelled: `random.seed`, `random.random` and
  `random.choice` become the `jitters` and `choices` inputs. The precondition on `choices` says every
  index is within the follow-up list.
- `random.randint` and `time.time` inside `feature_id`, and the clock behind `created_at`, are not
  modelled. Both values are inputs to `Simulate`.
- HeuristicReply: the reasoning record holds the unrounded confidence, because `round(confidence, 2)`
  and floating-point arithmetic are not modelled. Reals stand for floats throughout.
- Case and whitespace rules beyond ASCII are not modelled: `Text.Lower` and `Text.Strip` treat only ASCII
  letters and ASCII whitespace, where Python's `str.lower` and `str.strip` are Unicode-aware.
- `json.dumps(m.meta, indent=2)` is the parameter `dumps` of the Markdown functions. Its output
  format is not modelled.
- The default arguments are not modelled: `turns=4` and `seed=42` of `simulate`
  (`simulation_core.py:135`) and the field defaults of `Persona` (`simulation_core.py:19-28`).
  `Simulate` and `Persona` take every value explicitly, as the front ends pass `turns` and `seed`.
- `load_personas`, `save_run_md` and `save_run_json` are not modelled. They do YAML and file I/O
  and JSON serialisation.
- The `system_preamble` argument of `simulate` and the engine's `model` field are not modelled.
  The heuristic branch never reads them.
- Engine.Simulate: `conv.messages` is appended in place in the source. The model builds the list
  as a local sequence and stores it in the returned `Conversation` value; nothing else can observe
  the list during the run.
- A message's metadata is either the empty dict or a reasoning record, so `if m.meta:` is tested as
  "is not the empty dict". Other dicts, such as the TinyTroupe metadata, are not modelled.
- Reply.ConcernTriggers: the security rule tests "starts with 'security' or contains 'security'".
  It is stated as containment, which the starting case implies. `Reply.Concerns` proves the two
  agree.
- The concrete sentence "Add a paywall with a 7-day trial and GDPR-compliant data export" is not
  evaluated. `Signals.TrialThenPrivacy` proves the result for every spec of that shape.
- `Signals.ExtractFollowups`: the cut `qs[:6]` is modelled. It never shortens the list, because at
  most five rule questions can fire.
- The Streamlit and Gradio front ends (`app_streamlit.py`, `app_gradio.py`) are not part of this
  model.
