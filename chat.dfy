/** The chat helpers of gpt_ui: whose turn it is, token counting against an
    abstract tokenizer, trimming to a token budget, and the Markdown export. */
module Chat {
  import opened Wrappers
  import opened Strings

  /** One chat message. `model` and `user` are `None` when the dictionary
      has no such key. */
  datatype Message = Message(role: string, content: string, model: Option<string>, user: Option<string>)

  /** `next_role`: an empty chat starts with the system prompt, a user
      message is answered by the assistant, anything else by the user. */
  function NextRole(chat: seq<Message>): (r: string)
    ensures r == "system" <==> chat == []
    ensures r == "assistant" <==> chat != [] && chat[|chat| - 1].role == "user"
    ensures r == "system" || r == "assistant" || r == "user"
  {
    if |chat| == 0 then "system"
    else if chat[|chat| - 1].role == "user" then "assistant"
    else "user"
  }

  /** Turns alternate: the role asked for next is never the role of the
      message just appended. */
  lemma NextRoleAlternates(chat: seq<Message>, m: Message)
    ensures NextRole(chat + [m]) != m.role
    ensures NextRole(chat + [m]) != "system"
  {
    assert (chat + [m])[|chat|] == m;
  }

  /** The tokens of all contents, `enc(content)` standing for
      `len(conf.enc.encode(content))`. */
  function TokenSum(chat: seq<Message>, enc: string -> nat): nat {
    if chat == [] then 0 else TokenSum(chat[..|chat| - 1], enc) + enc(chat[|chat| - 1].content)
  }

  lemma {:induction false} TokenSumConcat(a: seq<Message>, b: seq<Message>, enc: string -> nat)
    ensures TokenSum(a + b, enc) == TokenSum(a, enc) + TokenSum(b, enc)
    decreases |b|
  {
    if b == [] {
      assert a + b == a;
    } else {
      var init := b[..|b| - 1];
      assert (a + b)[..|a + b| - 1] == a + init;
      TokenSumConcat(a, init, enc);
    }
  }

  /** A longer suffix of a chat never has fewer tokens. */
  lemma {:induction false} TokenSumSuffixMonotone(chat: seq<Message>, enc: string -> nat, k: nat, j: nat)
    requires k <= j <= |chat|
    ensures TokenSum(chat[|chat| - k..], enc) <= TokenSum(chat[|chat| - j..], enc)
  {
    var longer := chat[|chat| - j..];
    assert longer == chat[|chat| - j..|chat| - k] + chat[|chat| - k..];
    TokenSumConcat(chat[|chat| - j..|chat| - k], chat[|chat| - k..], enc);
  }

  /** `number_of_tokens`: the token count of the whole chat. */
  method NumberOfTokens(chat: seq<Message>, enc: string -> nat) returns (length: nat)
    ensures length == TokenSum(chat, enc)
  {
    length := 0;
    for i := 0 to |chat|
      invariant length == TokenSum(chat[..i], enc)
    {
      assert chat[..i + 1][..i] == chat[..i];
      length := length + enc(chat[i].content);
    }
    assert chat[..|chat|] == chat;
  }

  /** `trim_chat`: keep the first (system) message and, walking back from
      the newest, every message while the running count stays within
      `maxTokens`. The count returned includes the message that broke the
      budget, if any. The source collects the kept messages newest first
      and reverses them; here they are prepended, giving the same list.
      An empty chat raises `IndexError` in the source, hence the precondition. */
  method TrimChat(chat: seq<Message>, enc: string -> nat, maxTokens: int)
    returns (trimmed: seq<Message>, numTokens: int)
    requires |chat| >= 1
    ensures 1 <= |trimmed| <= |chat| && trimmed[0] == chat[0]
    ensures trimmed[1..] == chat[|chat| - (|trimmed| - 1)..]
    ensures |trimmed| > 1 ==> enc(chat[0].content) + TokenSum(trimmed[1..], enc) <= maxTokens
    ensures |trimmed| < |chat| ==>
      numTokens == enc(chat[0].content) + TokenSum(trimmed[1..], enc) + enc(chat[|chat| - |trimmed|].content)
      && numTokens > maxTokens
    ensures |trimmed| == |chat| ==> trimmed == chat && numTokens == TokenSum(chat, enc)
  {
    var rest := chat[1..];
    numTokens := enc(chat[0].content);
    var kept: seq<Message> := [];
    for i := 0 to |rest|
      invariant kept == rest[|rest| - i..]
      invariant numTokens == enc(chat[0].content) + TokenSum(kept, enc)
      invariant i > 0 ==> numTokens <= maxTokens
    {
      var e := rest[|rest| - 1 - i];
      numTokens := numTokens + enc(e.content);
      if numTokens > maxTokens {
        trimmed := [chat[0]] + kept;
        assert trimmed[1..] == kept;
        return;
      }
      assert [e] + kept == rest[|rest| - (i + 1)..];
      TokenSumConcat([e], kept, enc);
      assert [e][..0] == [];
      kept := [e] + kept;
    }
    trimmed := [chat[0]] + kept;
    assert trimmed[1..] == kept;
    assert trimmed == chat;
    TokenSumConcat([chat[0]], rest, enc);
    assert [chat[0]][..0] == [];
  }

  /** Trimming is greedy: once a message breaks the budget, no longer
      suffix of the chat would have fitted either. */
  lemma LongerSuffixOverBudget(chat: seq<Message>, enc: string -> nat, maxTokens: int, k: nat, j: nat)
    requires k < j <= |chat| - 1
    requires enc(chat[0].content) + TokenSum(chat[|chat| - (k + 1)..], enc) > maxTokens
    ensures enc(chat[0].content) + TokenSum(chat[|chat| - j..], enc) > maxTokens
  {
    TokenSumSuffixMonotone(chat, enc, k + 1, j);
  }

  /** The name shown for a message: `model` for the assistant, `user` for
      the user (each defaulting to the role name), else the role itself. */
  function SpeakerName(m: Message): (r: string)
    ensures m.role != "assistant" && m.role != "user" ==> r == m.role
    ensures m.role == "assistant" ==> r == (if m.model.Some? then m.model.value else "assistant")
    ensures m.role == "user" ==> r == (if m.user.Some? then m.user.value else "user")
  {
    if m.role == "assistant" then (match m.model case Some(name) => name case None => "assistant")
    else if m.role == "user" then (match m.user case Some(name) => name case None => "user")
    else m.role
  }

  /** `f"**{speaker}:** {m['content']}\n"`: the name in bold with a colon,
      then the content, then a newline; both can be read back from the line. */
  function MarkdownLine(m: Message): (r: string)
    ensures |r| == |SpeakerName(m)| + |m.content| + 7
    ensures StartsWith(r, "**") && r[2..2 + |SpeakerName(m)|] == SpeakerName(m)
    ensures r[2 + |SpeakerName(m)|..5 + |SpeakerName(m)|] == ":**" && r[5 + |SpeakerName(m)|] == ' '
    ensures r[|r| - 1 - |m.content|..|r| - 1] == m.content && r[|r| - 1] == '\n'
  {
    var name := SpeakerName(m);
    var r := "**" + name + ":** " + m.content + "\n";
    assert r[..2] == "**";
    assert r[2..2 + |name|] == name;
    assert r[2 + |name|..5 + |name|] == ":**";
    assert r[5 + |name|] == ' ';
    assert r[|r| - 1 - |m.content|..|r| - 1] == m.content;
    r
  }

  function MarkdownBody(chat: seq<Message>): string {
    if chat == [] then "" else MarkdownBody(chat[..|chat| - 1]) + MarkdownLine(chat[|chat| - 1])
  }

  const MarkdownHeader: string := "%% Auto geneterated file, do not edit %%\n\n"

  /** Exporting a chat in two parts gives the two exports joined. */
  lemma {:induction false} MarkdownBodyConcat(a: seq<Message>, b: seq<Message>)
    ensures MarkdownBody(a + b) == MarkdownBody(a) + MarkdownBody(b)
    decreases |b|
  {
    if b == [] {
      assert a + b == a;
    } else {
      var init := b[..|b| - 1];
      var line := MarkdownLine(b[|b| - 1]);
      assert (a + b)[..|a + b| - 1] == a + init;
      assert (a + b)[|a + b| - 1] == b[|b| - 1];
      assert MarkdownBody(b) == MarkdownBody(init) + line;
      assert MarkdownBody(a + b) == MarkdownBody(a + init) + line;
      MarkdownBodyConcat(a, init);
      AppendAssoc(MarkdownBody(a), MarkdownBody(init), line);
    }
  }

  lemma MarkdownBodyPrefix(chat: seq<Message>, i: nat)
    requires i < |chat|
    ensures MarkdownBody(chat[..i + 1]) == MarkdownBody(chat[..i]) + MarkdownLine(chat[i])
  {
    assert chat[..i + 1][..i] == chat[..i];
  }

  /** `chat_to_markdown`: the fixed header, then one line per message in order. */
  method ChatToMarkdown(chat: seq<Message>) returns (markdown: string)
    ensures markdown == MarkdownHeader + MarkdownBody(chat)
  {
    markdown := MarkdownHeader;
    for i := 0 to |chat|
      invariant markdown == MarkdownHeader + MarkdownBody(chat[..i])
    {
      MarkdownBodyPrefix(chat, i);
      AppendAssoc(MarkdownHeader, MarkdownBody(chat[..i]), MarkdownLine(chat[i]));
      markdown := markdown + MarkdownLine(chat[i]);
    }
    assert chat[..|chat|] == chat;
  }
}
