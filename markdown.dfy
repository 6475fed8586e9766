/** `Conversation.to_markdown`: a header naming the feature and the persona,
    the run's creation time and seed, then one block per message, with the
    message's metadata as a collapsible JSON block when it has any. The JSON
    encoder is a parameter `dumps`. */
module Markdown {
  import opened Text
  import opened Model

  // ---------------------------------------------------------------------------
  // Decimal numerals

  function DigitChar(d: int): (c: char)
    requires 0 <= d < 10
    ensures '0' <= c <= '9' && c as int - '0' as int == d
  {
    ('0' as int + d) as char
  }

  predicate IsDigits(s: string)
  {
    forall i :: 0 <= i < |s| ==> '0' <= s[i] <= '9'
  }

  /** The decimal digits of `n`, most significant first, as `str(n)` writes them. */
  function NatToString(n: nat): (s: string)
    ensures |s| >= 1 && IsDigits(s)
    ensures s[0] == '0' ==> n == 0
    decreases n
  {
    if n < 10 then [DigitChar(n)] else NatToString(n / 10) + [DigitChar(n % 10)]
  }

  /** `str(n)` for an integer: a minus sign before the digits of a negative one. */
  function IntToString(n: int): (s: string)
    ensures |s| >= 1
    ensures n < 0 <==> s[0] == '-'
  {
    if n < 0 then "-" + NatToString(-n) else NatToString(n)
  }

  /** The value of a string of decimal digits. */
  function DigitsValue(s: string): nat
    requires IsDigits(s)
  {
    if s == [] then 0 else DigitsValue(s[..|s| - 1]) * 10 + (s[|s| - 1] as int - '0' as int)
  }

  /** `int(s)` on an optionally signed string of decimal digits. */
  function ParseInt(s: string): int
    requires s != [] && (if s[0] == '-' then IsDigits(s[1..]) else IsDigits(s))
  {
    if s[0] == '-' then -(DigitsValue(s[1..]) as int) else DigitsValue(s)
  }

  lemma {:induction false} NatToStringValue(n: nat)
    ensures DigitsValue(NatToString(n)) == n
    decreases n
  {
    var s := NatToString(n);
    if n >= 10 {
      NatToStringValue(n / 10);
      assert s[..|s| - 1] == NatToString(n / 10);
    }
  }

  /** The seed written into the run information reads back as the seed. */
  lemma IntToStringRoundTrip(n: int)
    ensures var s := IntToString(n);
      s != [] && (if s[0] == '-' then IsDigits(s[1..]) else IsDigits(s)) && ParseInt(s) == n
  {
    var s := IntToString(n);
    if n < 0 {
      NatToStringValue(-n);
      assert s[1..] == NatToString(-n);
    } else {
      NatToStringValue(n);
    }
  }

  // ---------------------------------------------------------------------------
  // Blocks

  function Header(c: Conversation): string
  {
    "# Conversation — " + c.featureTitle + " — " + c.persona.name + " (" + c.persona.archetype + ")\n"
  }

  function RunInfo(c: Conversation): string
  {
    "- Created: " + c.createdAt + "\n- Seed: " + IntToString(c.seed) + "\n\n---\n"
  }

  /** The speaker label: the user, or the persona by name. */
  function Speaker(name: string, m: Message): string
  {
    if m.role == UserRole then "👤 User" else "🧪 " + name
  }

  function DetailsBlock(json: string): string
  {
    "<details><summary>meta</summary>\n\n```json\n" + json + "\n```\n</details>\n\n"
  }

  /** The speaker line of a message. */
  function SpeakerLine(name: string, m: Message): string
  {
    "**" + Speaker(name, m) + ":** " + m.content + "\n\n"
  }

  /** One message: its speaker line, then its metadata when it has any. */
  function MessageBlock(name: string, m: Message, dumps: Meta -> string): string
  {
    SpeakerLine(name, m) + (if m.meta != NoMeta then DetailsBlock(dumps(m.meta)) else "")
  }

  /** The renderer of one message in a conversation with persona `name`. */
  function Renderer(name: string, dumps: Meta -> string): Message -> string
  {
    (m: Message) => MessageBlock(name, m, dumps)
  }

  /** The blocks `render` makes of `msgs`, in order. */
  function Body(render: Message -> string, msgs: seq<Message>): string
  {
    if msgs == [] then "" else Body(render, msgs[..|msgs| - 1]) + render(msgs[|msgs| - 1])
  }

  /** The whole document. */
  function Document(c: Conversation, dumps: Meta -> string): string
  {
    Header(c) + RunInfo(c) + Body(Renderer(c.persona.name, dumps), c.messages)
  }

  /** `to_markdown`: the body is built block by block. */
  method ToMarkdown(c: Conversation, dumps: Meta -> string) returns (md: string)
    ensures md == Document(c, dumps)
  {
    var header := Header(c);
    var meta := RunInfo(c);
    var body := "";
    ghost var render := Renderer(c.persona.name, dumps);
    for i := 0 to |c.messages|
      invariant body == Body(render, c.messages[..i])
    {
      var m := c.messages[i];
      ghost var before := body;
      ghost var details := if m.meta != NoMeta then DetailsBlock(dumps(m.meta)) else "";
      body := body + SpeakerLine(c.persona.name, m);
      if m.meta != NoMeta {
        body := body + DetailsBlock(dumps(m.meta));
      }
      assert render(m) == SpeakerLine(c.persona.name, m) + details;
      Regroup3(before, SpeakerLine(c.persona.name, m), details);
      BodyStep(render, c.messages, i, before, render(m));
    }
    assert c.messages[..|c.messages|] == c.messages;
    md := header + meta + body;
  }

  // ---------------------------------------------------------------------------
  // Properties

  lemma {:induction false} BodySnoc(render: Message -> string, xs: seq<Message>, m: Message)
    ensures Body(render, xs + [m]) == Body(render, xs) + render(m)
  {
    assert (xs + [m])[..|xs|] == xs;
  }

  /** Rendering distributes over concatenation of message lists. */
  lemma {:induction false} BodyAppend(render: Message -> string, xs: seq<Message>, ys: seq<Message>)
    ensures Body(render, xs + ys) == Body(render, xs) + Body(render, ys)
    decreases |ys|
  {
    if ys == [] {
      assert xs + ys == xs;
    } else {
      var init, last := ys[..|ys| - 1], ys[|ys| - 1];
      assert ys == init + [last];
      assert xs + ys == (xs + init) + [last];
      BodyAppend(render, xs, init);
      BodySnoc(render, xs + init, last);
      BodySnoc(render, init, last);
    }
  }

  /** The body of a list is its prefix's body, then the block of message
      `i`, then the body of the rest. */
  lemma {:induction false} BodySplit(render: Message -> string, msgs: seq<Message>, i: int)
    requires 0 <= i < |msgs|
    ensures Body(render, msgs) == Body(render, msgs[..i]) + render(msgs[i]) + Body(render, msgs[i + 1..])
  {
    assert msgs == msgs[..i] + [msgs[i]] + msgs[i + 1..];
    BodyAround(render, msgs[..i], msgs[i], msgs[i + 1..]);
  }

  lemma {:induction false} BodyAround(render: Message -> string, xs: seq<Message>, m: Message, ys: seq<Message>)
    ensures Body(render, xs + [m] + ys) == Body(render, xs) + render(m) + Body(render, ys)
  {
    BodyAppend(render, xs + [m], ys);
    BodySnoc(render, xs, m);
  }

  /** One iteration of `to_markdown`'s loop adds the next message's block. */
  lemma {:induction false} BodyStep(render: Message -> string, msgs: seq<Message>, i: int, body: string, block: string)
    requires 0 <= i < |msgs| && body == Body(render, msgs[..i]) && render(msgs[i]) == block
    ensures body + block == Body(render, msgs[..i + 1])
  {
    assert msgs[..i + 1] == msgs[..i] + [msgs[i]];
    BodySnoc(render, msgs[..i], msgs[i]);
  }

  lemma Regroup3(a: string, b: string, c: string)
    ensures (a + b) + c == a + (b + c)
  {
  }

  lemma Regroup(a: string, b: string, c: string, d: string)
    ensures a + ((b + c) + d) == ((a + b) + c) + d
  {
  }

  /** The block of every listed message occurs in the body. */
  lemma BlockInBody(render: Message -> string, msgs: seq<Message>, i: int)
    requires 0 <= i < |msgs|
    ensures Contains(Body(render, msgs), render(msgs[i]))
  {
    BodySplit(render, msgs, i);
    ContainsSelf(render(msgs[i]));
    ContainsInfix(Body(render, msgs[..i]), render(msgs[i]), Body(render, msgs[i + 1..]), render(msgs[i]));
  }

  /** A message's block shows its content. */
  lemma ContentInBlock(name: string, m: Message, dumps: Meta -> string)
    ensures Contains(MessageBlock(name, m, dumps), m.content)
  {
    var details := if m.meta != NoMeta then DetailsBlock(dumps(m.meta)) else "";
    ContainsSelf(m.content);
    ContainsInfix("**" + Speaker(name, m) + ":** ", m.content, "\n\n", m.content);
    ContainsConcat(SpeakerLine(name, m), details, m.content);
  }

  /** Every message appears as its own block, after the blocks of all earlier
      messages and before those of all later ones; in particular its content
      is in the document. */
  lemma MessageInDocument(c: Conversation, dumps: Meta -> string, i: int)
    requires 0 <= i < |c.messages|
    ensures var msgs, render := c.messages, Renderer(c.persona.name, dumps);
      Document(c, dumps) == Header(c) + RunInfo(c) + Body(render, msgs[..i])
        + MessageBlock(c.persona.name, msgs[i], dumps) + Body(render, msgs[i + 1..])
    ensures Contains(Document(c, dumps), c.messages[i].content)
  {
    var name, msgs, render := c.persona.name, c.messages, Renderer(c.persona.name, dumps);
    var m := msgs[i];
    var opening, block := Header(c) + RunInfo(c), MessageBlock(name, m, dumps);
    BodySplit(render, msgs, i);
    assert render(m) == block;
    Regroup(opening, Body(render, msgs[..i]), block, Body(render, msgs[i + 1..]));
    BlockInBody(render, msgs, i);
    ContentInBlock(name, m, dumps);
    ContainsTrans(Body(render, msgs), block, m.content);
    ContainsConcat(opening, Body(render, msgs), m.content);
  }

  /** The document opens with the header, followed by the run information. */
  lemma DocumentOpens(c: Conversation, dumps: Meta -> string)
    ensures StartsWith(Document(c, dumps), Header(c) + RunInfo(c))
    ensures Contains(Document(c, dumps), IntToString(c.seed))
  {
    var d := Document(c, dumps);
    var pre := "- Created: " + c.createdAt + "\n- Seed: ";
    var post := "\n\n---\n" + Body(Renderer(c.persona.name, dumps), c.messages);
    assert d[..|Header(c) + RunInfo(c)|] == Header(c) + RunInfo(c);
    assert d == Header(c) + pre + IntToString(c.seed) + post;
    assert StartsWith(IntToString(c.seed), IntToString(c.seed));
    ContainsInfix(Header(c) + pre, IntToString(c.seed), post, IntToString(c.seed));
  }

  /** A message without metadata renders as its speaker line alone; one with
      metadata is followed by the encoder's text for it in a details block. */
  lemma MetadataBlock(name: string, m: Message, dumps: Meta -> string)
    ensures var line := SpeakerLine(name, m);
      && (m.meta == NoMeta ==> MessageBlock(name, m, dumps) == line)
      && (m.meta != NoMeta ==> MessageBlock(name, m, dumps) == line + DetailsBlock(dumps(m.meta)))
  {
  }
}
