/** `SimulationEngine.simulate` on its heuristic path: the opening prompt,
    one heuristic reply per round, and a follow-up question drawn from the
    first reply's suggestions before every later round.

    The random generator is replaced by two oracles: `jitters[r]` is the
    confidence jitter `(random.random() - 0.5) * 0.1` drawn in round `r`,
    and `choices[r - 1]` is the index `random.choice` picks before round
    `r`. */
module Engine {
  import opened Text
  import opened Model
  import opened Signals
  import opened Reply

  /** The title stored for a blank one. */
  const DefaultTitle := "Untitled " + "Feature"

  /** The number of persona replies: `range(1, turns)` adds none when
      `turns < 1`, so there is always at least the first one. */
  function Rounds(turns: int): (n: nat)
    ensures n >= 1 && n >= turns
    ensures turns >= 1 ==> n == turns
    ensures turns < 1 ==> n == 1
  {
    if turns < 1 then 1 else turns
  }

  /** The opening user message. It embeds the title and spec as given, not
      their stripped forms. */
  function Opener(title: string, spec: string): string
  {
    "Please review the feature: " + title + ". Key context:\n" + spec + "\nShare candid feedback in your usual tone."
  }

  /** The stored title: the stripped title, or the default when that is empty. */
  function StoredTitle(title: string): (t: string)
    ensures (forall i :: 0 <= i < |title| ==> IsSpace(title[i])) ==> t == DefaultTitle
    ensures (exists i :: 0 <= i < |title| && !IsSpace(title[i])) ==>
      t == Strip(title) && t != [] && !IsSpace(t[0]) && !IsSpace(t[|t| - 1])
  {
    StripEmptyIff(title);
    StripSlice(title);
    var s := Strip(title);
    if s == [] then DefaultTitle else s
  }

  /** A persona message carrying a heuristic reply to `prompt`. */
  function ReplyMessage(p: Persona, prompt: string, spec: string, j: real): (m: Message)
    ensures m.role == PersonaRole && m.meta.Reasoning?
    ensures m.meta.followUps == ExtractFollowups(p, spec)
    ensures 0.05 <= m.meta.confidence <= 0.95
  {
    var r := HeuristicReply(p, prompt, spec, j);
    Message(PersonaRole, r.0, r.1)
  }

  /** The persona's side of a heuristic run: the reply to a prompt, given
      the round's jitter. */
  function Responder(p: Persona, spec: string): (string, real) -> Message
  {
    (prompt: string, j: real) => ReplyMessage(p, prompt, spec, j)
  }

  /** The messages of a run of `rounds` rounds: the opener and the reply to
      it, then per later round `r` the question `qs[choices[r - 1]]` and the
      reply to that. */
  function Transcript(opener: string, qs: seq<string>, respond: (string, real) -> Message,
                      jitters: seq<real>, choices: seq<nat>, rounds: nat): seq<Message>
    requires 1 <= rounds <= |jitters| && rounds - 1 <= |choices|
    requires forall k :: 0 <= k < |choices| ==> choices[k] < |qs|
  {
    if rounds == 1 then
      [Message(UserRole, opener, NoMeta), respond(opener, jitters[0])]
    else
      var q := qs[choices[rounds - 2]];
      Transcript(opener, qs, respond, jitters, choices, rounds - 1)
        + [Message(UserRole, q, NoMeta), respond(q, jitters[rounds - 1])]
  }

  /** The heuristic branch of `simulate`. The conversation holds the stripped
      title and spec and the transcript of `Rounds(turns)` rounds whose
      opener quotes the raw title and spec, whose questions are drawn from
      the spec's follow-up list and whose replies are heuristic replies. */
  method Simulate(persona: Persona, featureTitle: string, featureSpec: string, turns: int, seed: int,
                  featureId: string, createdAt: string, jitters: seq<real>, choices: seq<nat>)
    returns (conv: Conversation)
    requires |jitters| >= Rounds(turns) && |choices| >= Rounds(turns) - 1
    requires forall r :: 0 <= r < |jitters| ==> IsJitter(jitters[r])
    requires forall r :: 0 <= r < |choices| ==> choices[r] < |ExtractFollowups(persona, featureSpec)|
    ensures conv.featureId == featureId && conv.createdAt == createdAt
    ensures conv.featureTitle == StoredTitle(featureTitle) && conv.featureSpec == Strip(featureSpec)
    ensures conv.persona == persona && conv.seed == seed
    ensures conv.messages == Transcript(Opener(featureTitle, featureSpec), ExtractFollowups(persona, featureSpec),
                                        Responder(persona, featureSpec), jitters, choices, Rounds(turns))
    ensures |conv.messages| == 2 * Rounds(turns)
  {
    ghost var qs := ExtractFollowups(persona, featureSpec);
    ghost var respond := Responder(persona, featureSpec);
    var opener := Opener(featureTitle, featureSpec);
    var first := ReplyMessage(persona, opener, featureSpec, jitters[0]);
    var msgs := [Message(UserRole, opener, NoMeta), first];
    var t := 1;
    while t < turns
      invariant 1 <= t <= Rounds(turns)
      invariant msgs == Transcript(opener, qs, respond, jitters, choices, t)
    {
      // The question is drawn from the first reply's list, as in the source.
      var q := first.meta.followUps[choices[t - 1]];
      var reply := ReplyMessage(persona, q, featureSpec, jitters[t]);
      msgs := msgs + [Message(UserRole, q, NoMeta), reply];
      t := t + 1;
    }
    assert t == Rounds(turns);
    TranscriptLength(opener, qs, respond, jitters, choices, t);
    conv := Conversation(featureId, StoredTitle(featureTitle), Strip(featureSpec), persona, seed, msgs, createdAt);
  }

  // ---------------------------------------------------------------------------
  // Properties of transcripts

  lemma {:induction false} TranscriptLength(opener: string, qs: seq<string>, respond: (string, real) -> Message,
                                            jitters: seq<real>, choices: seq<nat>, rounds: nat)
    requires 1 <= rounds <= |jitters| && rounds - 1 <= |choices|
    requires forall k :: 0 <= k < |choices| ==> choices[k] < |qs|
    ensures |Transcript(opener, qs, respond, jitters, choices, rounds)| == 2 * rounds
  {
    if rounds > 1 {
      TranscriptLength(opener, qs, respond, jitters, choices, rounds - 1);
    }
  }

  /** A shorter run is a prefix of a longer one with the same draws. */
  lemma {:induction false} TranscriptPrefix(opener: string, qs: seq<string>, respond: (string, real) -> Message,
                                            jitters: seq<real>, choices: seq<nat>, m: nat, n: nat)
    requires 1 <= m <= n <= |jitters| && n - 1 <= |choices|
    requires forall k :: 0 <= k < |choices| ==> choices[k] < |qs|
    ensures 2 * m <= |Transcript(opener, qs, respond, jitters, choices, n)|
    ensures Transcript(opener, qs, respond, jitters, choices, m) == Transcript(opener, qs, respond, jitters, choices, n)[..2 * m]
    decreases n
  {
    TranscriptLength(opener, qs, respond, jitters, choices, m);
    TranscriptLength(opener, qs, respond, jitters, choices, n);
    if m < n {
      TranscriptPrefix(opener, qs, respond, jitters, choices, m, n - 1);
      var prev := Transcript(opener, qs, respond, jitters, choices, n - 1);
      TranscriptLength(opener, qs, respond, jitters, choices, n - 1);
      assert Transcript(opener, qs, respond, jitters, choices, n)[..2 * m] == prev[..2 * m];
    }
  }

  /** Message `i` of a transcript: the opener at 0; at every other even
      position the user's question of that round; at odd positions the
      response to the message just before it. */
  lemma TranscriptAt(opener: string, qs: seq<string>, respond: (string, real) -> Message,
                     jitters: seq<real>, choices: seq<nat>, rounds: nat, i: int)
    requires 1 <= rounds <= |jitters| && rounds - 1 <= |choices|
    requires forall k :: 0 <= k < |choices| ==> choices[k] < |qs|
    requires 0 <= i < 2 * rounds
    ensures var msgs := Transcript(opener, qs, respond, jitters, choices, rounds);
      && |msgs| == 2 * rounds
      && (i == 0 ==> msgs[i] == Message(UserRole, opener, NoMeta))
      && (i > 0 && i % 2 == 0 ==> msgs[i] == Message(UserRole, qs[choices[i / 2 - 1]], NoMeta))
      && (i % 2 == 1 ==> msgs[i] == respond(msgs[i - 1].content, jitters[i / 2]))
  {
    var msgs := Transcript(opener, qs, respond, jitters, choices, rounds);
    var r := i / 2 + 1;
    var short := Transcript(opener, qs, respond, jitters, choices, r);
    TranscriptLength(opener, qs, respond, jitters, choices, rounds);
    TranscriptPrefix(opener, qs, respond, jitters, choices, r, rounds);
    assert msgs[i] == short[i];
    if i > 0 {
      assert msgs[i - 1] == short[i - 1];
    }
    if r > 1 {
      var prev := Transcript(opener, qs, respond, jitters, choices, r - 1);
      var q := qs[choices[r - 2]];
      TranscriptLength(opener, qs, respond, jitters, choices, r - 1);
      assert short == prev + [Message(UserRole, q, NoMeta), respond(q, jitters[r - 1])];
      assert short[2 * r - 2] == Message(UserRole, q, NoMeta);
    }
  }

  /** What a run needs of its responder: persona messages with a reasoning
      record that suggests the questions `qs`. */
  ghost predicate RespondsWith(respond: (string, real) -> Message, qs: seq<string>)
  {
    forall prompt, j :: respond(prompt, j).role == PersonaRole && respond(prompt, j).meta.Reasoning?
                        && respond(prompt, j).meta.followUps == qs
  }

  /** Roles alternate, starting with the user; user messages carry no
      metadata and responses do; every question the user asks is one the
      response just before it suggested. */
  lemma TranscriptShape(opener: string, qs: seq<string>, respond: (string, real) -> Message,
                        jitters: seq<real>, choices: seq<nat>, rounds: nat, i: int)
    requires 1 <= rounds <= |jitters| && rounds - 1 <= |choices|
    requires forall k :: 0 <= k < |choices| ==> choices[k] < |qs|
    requires RespondsWith(respond, qs)
    requires 0 <= i < 2 * rounds
    ensures var msgs := Transcript(opener, qs, respond, jitters, choices, rounds);
      && |msgs| == 2 * rounds
      && (msgs[i].role == UserRole <==> i % 2 == 0)
      && (msgs[i].meta == NoMeta <==> i % 2 == 0)
      && (i > 0 && i % 2 == 0 ==> msgs[i - 1].meta.Reasoning? && msgs[i].content in msgs[i - 1].meta.followUps)
  {
    var msgs := Transcript(opener, qs, respond, jitters, choices, rounds);
    TranscriptAt(opener, qs, respond, jitters, choices, rounds, i);
    assert RespondsWith(respond, qs);
    if i % 2 == 1 {
      var jitter: real := jitters[i / 2];
      var m := respond(msgs[i - 1].content, jitter);
      assert m.role == PersonaRole && m.meta.Reasoning?;
    } else if i > 0 {
      TranscriptAt(opener, qs, respond, jitters, choices, rounds, i - 1);
      var jitter: real := jitters[(i - 1) / 2];
      var m := respond(msgs[i - 2].content, jitter);
      assert m.meta.Reasoning? && m.meta.followUps == qs;
    }
  }

  /** The alternation invariant together with the question source: every
      later user question is one of the follow-ups of the first reply. */
  lemma RunShape(opener: string, qs: seq<string>, respond: (string, real) -> Message,
                 jitters: seq<real>, choices: seq<nat>, rounds: nat, i: int)
    requires 1 <= rounds <= |jitters| && rounds - 1 <= |choices|
    requires forall k :: 0 <= k < |choices| ==> choices[k] < |qs|
    requires RespondsWith(respond, qs)
    requires 0 <= i < 2 * rounds
    ensures var msgs := Transcript(opener, qs, respond, jitters, choices, rounds);
      && |msgs| == 2 * rounds
      && (msgs[i].role == UserRole <==> i % 2 == 0)
      && (msgs[i].meta == NoMeta <==> i % 2 == 0)
      && msgs[0].content == opener
      && msgs[1].meta.Reasoning? && msgs[1].meta.followUps == qs
      && (i > 0 && i % 2 == 0 ==> msgs[i].content in msgs[1].meta.followUps)
  {
    var msgs := Transcript(opener, qs, respond, jitters, choices, rounds);
    TranscriptShape(opener, qs, respond, jitters, choices, rounds, i);
    TranscriptAt(opener, qs, respond, jitters, choices, rounds, 0);
    TranscriptAt(opener, qs, respond, jitters, choices, rounds, 1);
    TranscriptAt(opener, qs, respond, jitters, choices, rounds, i);
    assert RespondsWith(respond, qs);
    var jitter: real := jitters[0];
    var first := respond(opener, jitter);
    assert first.meta.Reasoning? && first.meta.followUps == qs;
  }

  // ---------------------------------------------------------------------------
  // Properties of simulated conversations

  /** The heuristic responder answers with the heuristic reply, suggests the
      spec's follow-up questions and keeps its confidence in range. */
  lemma ResponderReplies(p: Persona, spec: string)
    ensures RespondsWith(Responder(p, spec), ExtractFollowups(p, spec))
    ensures forall prompt, j :: Responder(p, spec)(prompt, j) == ReplyMessage(p, prompt, spec, j)
    ensures forall prompt, j :: 0.05 <= Responder(p, spec)(prompt, j).meta.confidence <= 0.95
  {
  }

  /** A heuristic run alternates user and persona messages, starting with
      the opener and ending with a reply; only the replies carry metadata;
      and every later user message asks one of the first reply's follow-up
      questions, which are the spec's. */
  lemma SimulatedRun(persona: Persona, featureTitle: string, featureSpec: string, turns: int,
                     jitters: seq<real>, choices: seq<nat>, i: int)
    requires |jitters| >= Rounds(turns) && |choices| >= Rounds(turns) - 1
    requires forall r :: 0 <= r < |choices| ==> choices[r] < |ExtractFollowups(persona, featureSpec)|
    requires 0 <= i < 2 * Rounds(turns)
    ensures var msgs := Transcript(Opener(featureTitle, featureSpec), ExtractFollowups(persona, featureSpec),
                                   Responder(persona, featureSpec), jitters, choices, Rounds(turns));
      && |msgs| == 2 * Rounds(turns)
      && (msgs[i].role == UserRole <==> i % 2 == 0)
      && (msgs[i].meta == NoMeta <==> i % 2 == 0)
      && msgs[0].content == Opener(featureTitle, featureSpec)
      && msgs[1].meta.Reasoning? && msgs[1].meta.followUps == ExtractFollowups(persona, featureSpec)
      && (i > 0 && i % 2 == 0 ==> msgs[i].content in msgs[1].meta.followUps)
  {
    ResponderReplies(persona, featureSpec);
    RunShape(Opener(featureTitle, featureSpec), ExtractFollowups(persona, featureSpec),
             Responder(persona, featureSpec), jitters, choices, Rounds(turns), i);
  }

  /** The first reply sees every keyword of the spec, because the opener
      quotes the spec. */
  lemma OpenerQuotesSpec(title: string, spec: string, k: string)
    requires Contains(Lower(spec), k)
    ensures Contains(Lower(Opener(title, spec)), k)
  {
    var pre := "Please review the feature: " + title + ". Key context:\n";
    var post := "\nShare candid feedback in your usual tone.";
    assert Opener(title, spec) == pre + spec + post;
    LowerAppend(pre, spec);
    LowerAppend(pre + spec, post);
    ContainsInfix(Lower(pre), Lower(spec), Lower(post), k);
  }

  /** A blank title is stored as the default title. */
  lemma BlankTitleDefaults(title: string)
    requires forall c :: c in title ==> IsSpace(c)
    ensures StoredTitle(title) == DefaultTitle
  {
    assert forall i :: 0 <= i < |title| ==> title[i] in title;
  }

  lemma DefaultTitleTrimmed()
    ensures DefaultTitle != [] && !IsSpace(DefaultTitle[0]) && !IsSpace(DefaultTitle[|DefaultTitle| - 1])
  {
    assert DefaultTitle[0] == 'U' && DefaultTitle[|DefaultTitle| - 1] == 'e';
  }

  /** Storing a stored title again returns it unchanged, the default title included. */
  lemma StoredTitleIdempotent(title: string)
    ensures StoredTitle(StoredTitle(title)) == StoredTitle(title)
  {
    var t := StoredTitle(title);
    DefaultTitleTrimmed();
    assert t != [] && !IsSpace(t[0]) && !IsSpace(t[|t| - 1]);
    assert exists i :: 0 <= i < |t| && !IsSpace(t[i]);
    StripTrimmed(t);
  }
}
