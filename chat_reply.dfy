/**
 * The reply provider of the chat widget (services/geminiService.ts): the local
 * keyword classifier, the choice of credential and the status it implies, the
 * routing between the two remote backends, the request each backend is sent,
 * and the fallback to the local reply when the remote call fails.
 *
 * The remote services are not modelled: a remote call is a function from the
 * request that would be sent to its outcome (a reply text or a failure).
 */
module ChatReply {
  import opened Sequences

  datatype Option<T> = None | Some(value: T)

  // ---------------------------------------------------------------------------
  // Strings: ASCII lower-casing and substring search (`toLowerCase`, `includes`)
  // ---------------------------------------------------------------------------

  /** ASCII case folding; every other character is left unchanged. */
  function LowerChar(c: char): char {
    if 'A' <= c <= 'Z' then (c as int + 32) as char else c
  }

  function UpperChar(c: char): char {
    if 'a' <= c <= 'z' then (c as int - 32) as char else c
  }

  /** `s.toLowerCase()` restricted to ASCII letters. */
  function Lower(s: string): (r: string)
    ensures |r| == |s|
    ensures forall i :: 0 <= i < |s| ==> r[i] == LowerChar(s[i])
  {
    if s == [] then [] else [LowerChar(s[0])] + Lower(s[1..])
  }

  /** `s.toUpperCase()` restricted to ASCII letters. */
  function Upper(s: string): (r: string)
    ensures |r| == |s|
    ensures forall i :: 0 <= i < |s| ==> r[i] == UpperChar(s[i])
  {
    if s == [] then [] else [UpperChar(s[0])] + Upper(s[1..])
  }

  /** Lower-casing a lower-cased string changes nothing. */
  lemma {:induction false} LowerIdempotent(s: string)
    ensures Lower(Lower(s)) == Lower(s)
  {
    if s != [] {
      LowerIdempotent(s[1..]);
      assert Lower(s)[1..] == Lower(s[1..]);
    }
  }

  /** Lower-casing forgets whether a letter was upper-cased first. */
  lemma {:induction false} LowerOfUpper(s: string)
    ensures Lower(Upper(s)) == Lower(s)
  {
    if s != [] {
      LowerOfUpper(s[1..]);
      assert Upper(s)[1..] == Upper(s[1..]);
    }
  }

  /** `needle` occurs in `s` starting at index `i`. */
  predicate OccursAt(s: string, needle: string, i: nat) {
    i + |needle| <= |s| && s[i..i + |needle|] == needle
  }

  /** `s.includes(needle)`: some occurrence of `needle` lies inside `s`. */
  function Includes(s: string, needle: string): (r: bool)
    ensures r <==> exists i: nat :: OccursAt(s, needle, i)
    decreases |s|
  {
    if |needle| > |s| then false
    else if s[..|needle|] == needle then (assert OccursAt(s, needle, 0); true)
    else
      var r := Includes(s[1..], needle);
      assert forall i: nat :: 0 < i ==> (OccursAt(s, needle, i) <==> OccursAt(s[1..], needle, i - 1));
      assert r ==> exists i: nat :: OccursAt(s, needle, i) by {
        if r {
          var j: nat :| OccursAt(s[1..], needle, j);
          assert OccursAt(s, needle, j + 1);
        }
      }
      r
  }

  // ---------------------------------------------------------------------------
  // The local keyword reply (`getLocalResponse`, `FALLBACK_RESPONSES`)
  // ---------------------------------------------------------------------------

  /** The five canned reply categories, in the order the classifier tries
      them; `Default` is taken when no keyword matches. */
  datatype Fallback = Greeting | Who | Tech | Help | Default

  const DefaultText: string := "Accessing local archives... My cloud neural link is currently offline (Check API Key). However, I am Saqib's digital avatar. I can simulate basic interaction."
  const GreetingText: string := "System online. Greetings, human. I am Saqib v3.0."
  const WhoText: string := "I am a digital construct formed by the convergence of multiple AI agents, representing the technological identity of Saqib."
  const TechText: string := "My architecture is built on React, Tailwind, and Advanced AI Neural Networks. A perfect fusion of logic and creativity."
  const HelpText: string := "I can answer questions about Saqib, technology, or AI. Please ensure my neural pathway (API Key) is connected for complex queries."

  const FallbackTexts: set<string> := {DefaultText, GreetingText, WhoText, TechText, HelpText}

  function FallbackText(k: Fallback): (t: string)
    ensures t in FallbackTexts
    ensures t != ""
  {
    match k
    case Greeting => GreetingText
    case Who => WhoText
    case Tech => TechText
    case Help => HelpText
    case Default => DefaultText
  }

  /** The five canned texts are pairwise different, so a reply text tells
      which category produced it. */
  lemma FallbackTextInjective(j: Fallback, k: Fallback)
    ensures FallbackText(j) == FallbackText(k) <==> j == k
  {
    if j != k {
      assert |DefaultText| != |GreetingText| && |DefaultText| != |WhoText| && |DefaultText| != |TechText|;
      assert |DefaultText| != |HelpText| && |GreetingText| != |WhoText| && |GreetingText| != |TechText|;
      assert |GreetingText| != |HelpText| && |WhoText| != |TechText| && |WhoText| != |HelpText|;
      assert |TechText| != |HelpText|;
    }
  }

  /** The keywords that select each category (none for `Default`). */
  function Keywords(k: Fallback): seq<string> {
    match k
    case Greeting => ["hi", "hello", "salam"]
    case Who => ["who", "name"]
    case Tech => ["tech", "stack", "made"]
    case Help => ["help"]
    case Default => []
  }

  /** Some keyword of category `k` occurs in `s`. */
  predicate Mentions(s: string, k: Fallback) {
    exists i :: 0 <= i < |Keywords(k)| && Includes(s, Keywords(k)[i])
  }

  /** `s` holds none of the nine keywords. */
  predicate MentionsNoKeyword(s: string) {
    !Mentions(s, Greeting) && !Mentions(s, Who) && !Mentions(s, Tech) && !Mentions(s, Help)
  }

  /** The category `getLocalResponse` picks: the first category, in priority
      order, one of whose keywords occurs in the lower-cased input. */
  function Classify(input: string): (k: Fallback)
    ensures var s := Lower(input);
      && (k == Greeting <==> Mentions(s, Greeting))
      && (k == Who <==> !Mentions(s, Greeting) && Mentions(s, Who))
      && (k == Tech <==> !Mentions(s, Greeting) && !Mentions(s, Who) && Mentions(s, Tech))
      && (k == Help <==> !Mentions(s, Greeting) && !Mentions(s, Who) && !Mentions(s, Tech) && Mentions(s, Help))
      && (k == Default <==> MentionsNoKeyword(s))
  {
    var s := Lower(input);
    assert Mentions(s, Greeting) <==> Includes(s, "hi") || Includes(s, "hello") || Includes(s, "salam") by {
      assert Keywords(Greeting)[0] == "hi" && Keywords(Greeting)[1] == "hello" && Keywords(Greeting)[2] == "salam";
    }
    assert Mentions(s, Who) <==> Includes(s, "who") || Includes(s, "name") by {
      assert Keywords(Who)[0] == "who" && Keywords(Who)[1] == "name";
    }
    assert Mentions(s, Tech) <==> Includes(s, "tech") || Includes(s, "stack") || Includes(s, "made") by {
      assert Keywords(Tech)[0] == "tech" && Keywords(Tech)[1] == "stack" && Keywords(Tech)[2] == "made";
    }
    assert Mentions(s, Help) <==> Includes(s, "help") by {
      assert Keywords(Help)[0] == "help";
    }
    if Includes(s, "hi") || Includes(s, "hello") || Includes(s, "salam") then Greeting
    else if Includes(s, "who") || Includes(s, "name") then Who
    else if Includes(s, "tech") || Includes(s, "stack") || Includes(s, "made") then Tech
    else if Includes(s, "help") then Help
    else Default
  }

  /** `getLocalResponse`: always one of the five canned texts; each text is
      given exactly when the keyword tests before it fail and its own
      succeeds, and the default one exactly when the input holds none of the
      nine keywords. */
  function GetLocalResponse(input: string): (r: string)
    ensures r in FallbackTexts
    ensures r == GreetingText <==> Mentions(Lower(input), Greeting)
    ensures r == WhoText <==> !Mentions(Lower(input), Greeting) && Mentions(Lower(input), Who)
    ensures r == TechText <==>
      !Mentions(Lower(input), Greeting) && !Mentions(Lower(input), Who) && Mentions(Lower(input), Tech)
    ensures r == HelpText <==>
      !Mentions(Lower(input), Greeting) && !Mentions(Lower(input), Who) && !Mentions(Lower(input), Tech)
      && Mentions(Lower(input), Help)
    ensures r == DefaultText <==> MentionsNoKeyword(Lower(input))
  {
    var k := Classify(input);
    FallbackTextInjective(k, Greeting);
    FallbackTextInjective(k, Who);
    FallbackTextInjective(k, Tech);
    FallbackTextInjective(k, Help);
    FallbackTextInjective(k, Default);
    FallbackText(k)
  }

  /** Matching ignores case: two inputs that agree up to ASCII case get the
      same reply; in particular lower-casing or upper-casing the input first
      changes nothing. */
  lemma LocalResponseIgnoresCase(a: string, b: string)
    requires Lower(a) == Lower(b)
    ensures GetLocalResponse(a) == GetLocalResponse(b)
    ensures GetLocalResponse(Lower(a)) == GetLocalResponse(a)
    ensures GetLocalResponse(Upper(a)) == GetLocalResponse(a)
  {
    LowerIdempotent(a);
    LowerOfUpper(a);
  }

  // ---------------------------------------------------------------------------
  // Credential and status (`getApiKey`, `getSystemStatus`)
  // ---------------------------------------------------------------------------

  /** What `getApiKey` can see: either no usable `process.env` (absent, or
      reading it threw), or the two variables, each possibly undefined. */
  datatype Environment =
    | NoProcessEnv
    | ProcessEnv(apiKey: Option<string>, openRouterApiKey: Option<string>)

  /** A variable is truthy in JavaScript when it is defined and non-empty. */
  predicate IsSet(v: Option<string>) {
    v.Some? && v.value != ""
  }

  /** `API_KEY || OPENROUTER_API_KEY || ''`. */
  function GetApiKey(env: Environment): (key: string)
    ensures key == "" <==> env.NoProcessEnv? || (!IsSet(env.apiKey) && !IsSet(env.openRouterApiKey))
    ensures key != "" && IsSet(env.apiKey) ==> key == env.apiKey.value
    ensures key != "" && !IsSet(env.apiKey) ==> key == env.openRouterApiKey.value
  {
    match env
    case NoProcessEnv => ""
    case ProcessEnv(api, openRouter) =>
      if IsSet(api) then api.value
      else if IsSet(openRouter) then openRouter.value
      else ""
  }

  /** The number of UTF-16 code units `c` takes: two for a character outside
      the Basic Multilingual Plane, one otherwise. */
  function Utf16Units(c: char): nat {
    if c as int >= 0x1_0000 then 2 else 1
  }

  /** JavaScript's `length` of `s`, which counts UTF-16 code units: at least
      one and at most two per character, and exactly one per character when
      every character lies in the Basic Multilingual Plane. */
  function Utf16Length(s: string): (n: nat)
    ensures |s| <= n <= 2 * |s|
    ensures n == |s| <==> forall i :: 0 <= i < |s| ==> s[i] as int < 0x1_0000
  {
    if s == [] then 0
    else
      var rest := Utf16Length(s[1..]);
      assert forall i :: 1 <= i < |s| ==> s[i] == s[1..][i - 1];
      Utf16Units(s[0]) + rest
  }

  datatype Status = Online | Offline

  /** `getSystemStatus`: ONLINE exactly when the chosen key is longer than five
      UTF-16 code units; for a key within the Basic Multilingual Plane that is
      more than five characters. */
  function GetSystemStatus(env: Environment): (s: Status)
    ensures s == Online <==> Utf16Length(GetApiKey(env)) > 5
    ensures GetApiKey(env) == "" ==> s == Offline
    ensures (forall i :: 0 <= i < |GetApiKey(env)| ==> GetApiKey(env)[i] as int < 0x1_0000) ==>
      (s == Online <==> |GetApiKey(env)| > 5)
  {
    var key := GetApiKey(env);
    if key != "" && Utf16Length(key) > 5 then Online else Offline
  }

  /** Three characters outside the Basic Multilingual Plane make six code
      units, so such a key counts as ONLINE. */
  lemma AstralKeyOnline()
    ensures |"\U{1F511}\U{1F511}\U{1F511}"| == 3
    ensures GetSystemStatus(ProcessEnv(Some("\U{1F511}\U{1F511}\U{1F511}"), None)) == Online
  {
    var key := "\U{1F511}\U{1F511}\U{1F511}";
    assert Utf16Length(key[2..]) == 2;
    assert Utf16Length(key[1..]) == 4;
  }

  // ---------------------------------------------------------------------------
  // Conversation turns and the two request shapes
  // ---------------------------------------------------------------------------

  datatype Role = User | Model

  /** A chat turn; its id and timestamp play no part in the reply. */
  datatype Message = Message(role: Role, text: string)

  datatype ChatRole = SystemRole | UserRole | AssistantRole

  /** One entry of the role-tagged list sent to the chat-completion endpoint. */
  datatype ChatMessage = ChatMessage(role: ChatRole, content: string)

  const SystemInstruction: string := "\nYou are 'Saqib', a highly advanced AI entity created from the convergence of multiple intelligent agents. \nYour persona is futuristic, knowledgeable, tech-savvy, and helpful.\nYou represent the cutting edge of technology.\nAnswer questions briefly and with a slightly robotic but friendly, cyberpunk flair.\nIf asked who you are, explain that you are the digital manifestation of Saqib, formed by AI.\nDo not output <think> tags or reasoning traces in your final response.\n"

  const OpenRouterHistoryTurns: nat := 10
  const GeminiHistoryTurns: nat := 5

  /** `c` is turn `m` as OpenRouter receives it: the same text, with the role
      `assistant` for a `model` turn and `user` for every other turn. */
  predicate Relays(c: ChatMessage, m: Message) {
    c.content == m.text && c.role != SystemRole && (c.role == AssistantRole <==> m.role == Model)
  }

  /** The turns as the OpenRouter request lists them, in the same order. */
  function ToChatMessages(turns: seq<Message>): (r: seq<ChatMessage>)
    ensures |r| == |turns|
    ensures forall i :: 0 <= i < |turns| ==> Relays(r[i], turns[i])
  {
    if turns == [] then []
    else
      var m := turns[0];
      [ChatMessage(if m.role == Model then AssistantRole else UserRole, m.text)] + ToChatMessages(turns[1..])
  }

  /** `turns` as chat messages, between a leading and a trailing message. */
  function Framed(first: ChatMessage, turns: seq<Message>, last: ChatMessage): (r: seq<ChatMessage>)
    ensures |r| == |turns| + 2
    ensures r[0] == first && r[|r| - 1] == last
    ensures forall i :: 1 <= i < |r| - 1 ==> Relays(r[i], turns[i - 1])
  {
    var middle := ToChatMessages(turns);
    var r := [first] + middle + [last];
    forall i | 1 <= i < |r| - 1
      ensures Relays(r[i], turns[i - 1])
    {
      assert r[i] == middle[i - 1];
    }
    r
  }

  /** The message list of `generateOpenRouterResponse`: the system instruction,
      the last ten turns in their order, then the new user message. */
  function OpenRouterMessages(history: seq<Message>, userMessage: string): (r: seq<ChatMessage>)
    ensures |r| == Min(|history|, OpenRouterHistoryTurns) + 2
    ensures r[0] == ChatMessage(SystemRole, SystemInstruction)
    ensures r[|r| - 1] == ChatMessage(UserRole, userMessage)
    ensures forall i :: 1 <= i < |r| - 1 ==> Relays(r[i], LastN(history, OpenRouterHistoryTurns)[i - 1])
  {
    Framed(ChatMessage(SystemRole, SystemInstruction), LastN(history, OpenRouterHistoryTurns),
           ChatMessage(UserRole, userMessage))
  }

  /** Only the last ten turns reach OpenRouter. */
  lemma OpenRouterIgnoresOlderTurns(older: seq<Message>, recent: seq<Message>, userMessage: string)
    requires |recent| >= OpenRouterHistoryTurns
    ensures OpenRouterMessages(older + recent, userMessage) == OpenRouterMessages(recent, userMessage)
  {
    LastNIgnoresOlder(older, recent, OpenRouterHistoryTurns);
  }

  /** One turn of the Gemini context: `User: <text>` or `Saqib: <text>`. */
  function ContextLine(m: Message): (line: string)
    ensures m.role == User ==> line == "User: " + m.text
    ensures m.role == Model ==> line == "Saqib: " + m.text
  {
    (if m.role == User then "User" else "Saqib") + ": " + m.text
  }

  /** `lines.join('\n')`: nothing for no lines, the line itself for one, and
      otherwise the lines before the last joined, a newline, then the last
      line. */
  function JoinLines(lines: seq<string>): (r: string)
    ensures lines == [] ==> r == ""
    ensures |lines| == 1 ==> r == lines[0]
    ensures |lines| > 1 ==> r == JoinLines(lines[..|lines| - 1]) + "\n" + lines[|lines| - 1]
  {
    if lines == [] then ""
    else if |lines| == 1 then lines[0]
    else
      var n := |lines|;
      var tail := lines[1..];
      var rest := JoinLines(tail);
      if n > 2 then
        var init := lines[..n - 1];
        assert tail[..n - 2] == init[1..];
        assert |init| > 1 && init[0] == lines[0];
        lines[0] + "\n" + rest
      else
        lines[0] + "\n" + rest
  }

  function ContextLines(turns: seq<Message>): (r: seq<string>)
    ensures |r| == |turns|
    ensures forall i :: 0 <= i < |turns| ==> r[i] == ContextLine(turns[i])
  {
    if turns == [] then [] else [ContextLine(turns[0])] + ContextLines(turns[1..])
  }

  /** Index of the first newline in `s`, or `|s|` when it has none. */
  function LineEnd(s: string): (i: nat)
    ensures i <= |s| && '\n' !in s[..i]
    ensures i < |s| ==> s[i] == '\n'
  {
    if s == [] || s[0] == '\n' then 0
    else
      var i := 1 + LineEnd(s[1..]);
      assert s[..i] == [s[0]] + s[1..][..i - 1];
      i
  }

  /** `s.split('\n')`. */
  function SplitLines(s: string): seq<string>
    decreases |s|
  {
    var i := LineEnd(s);
    if i == |s| then [s] else [s[..i]] + SplitLines(s[i + 1..])
  }

  lemma {:induction false} LineEndAfter(a: string, b: string)
    requires '\n' !in a && (b == [] || b[0] == '\n')
    ensures LineEnd(a + b) == |a|
  {
    if a == [] {
      assert a + b == b;
    } else {
      assert (a + b)[1..] == a[1..] + b;
      assert a[0] in a;
      LineEndAfter(a[1..], b);
    }
  }

  /** Splitting at the first newline of a line, a newline and the rest. */
  lemma SplitLinesStep(first: string, rest: string)
    requires '\n' !in first
    ensures SplitLines(first + "\n" + rest) == [first] + SplitLines(rest)
  {
    var s := first + ("\n" + rest);
    assert first + "\n" + rest == s;
    LineEndAfter(first, "\n" + rest);
    assert s[..|first|] == first;
    assert s[|first| + 1..] == rest;
  }

  /** Splitting the joined lines gives them back, as long as no line holds a
      newline itself. */
  lemma {:induction false} SplitJoinLines(lines: seq<string>)
    requires lines != []
    requires forall i :: 0 <= i < |lines| ==> '\n' !in lines[i]
    ensures SplitLines(JoinLines(lines)) == lines
  {
    var first := lines[0];
    if |lines| == 1 {
      LineEndAfter(first, []);
      assert first + [] == first;
      assert SplitLines(first) == [first];
    } else {
      SplitLinesStep(first, JoinLines(lines[1..]));
      SplitJoinLines(lines[1..]);
      assert lines == [first] + lines[1..];
    }
  }

  /** A turn without a newline gives a context line without one. */
  lemma ContextLineIsOneLine(m: Message)
    requires '\n' !in m.text
    ensures '\n' !in ContextLine(m)
  {
    var tag := if m.role == User then "User: " else "Saqib: ";
    assert ContextLine(m) == tag + m.text;
    forall i | 0 <= i < |ContextLine(m)| ensures ContextLine(m)[i] != '\n' {
      if i >= |tag| {
        assert ContextLine(m)[i] == m.text[i - |tag|];
      }
    }
  }

  /** The context part of the Gemini prompt: one labelled line per turn among
      the last five, oldest first, joined by newlines. Reading it back line by
      line recovers exactly those turns' lines when no turn text holds a
      newline. */
  function GeminiContext(history: seq<Message>): (c: string)
    ensures c == JoinLines(ContextLines(LastN(history, GeminiHistoryTurns)))
    ensures history == [] ==> c == ""
    ensures history != [] && (forall i :: 0 <= i < |history| ==> '\n' !in history[i].text) ==>
      SplitLines(c) == ContextLines(LastN(history, GeminiHistoryTurns))
  {
    var recent := LastN(history, GeminiHistoryTurns);
    var lines := ContextLines(recent);
    if history != [] && (forall i :: 0 <= i < |history| ==> '\n' !in history[i].text) then
      assert forall i :: 0 <= i < |lines| ==> '\n' !in lines[i] by {
        forall i | 0 <= i < |lines| ensures '\n' !in lines[i] {
          assert recent[i] == history[|history| - |recent| + i];
          ContextLineIsOneLine(recent[i]);
        }
      }
      SplitJoinLines(lines);
      JoinLines(lines)
    else
      JoinLines(lines)
  }

  predicate EndsWith(s: string, suffix: string) {
    |suffix| <= |s| && s[|s| - |suffix|..] == suffix
  }

  /** The prompt of `generateGeminiResponse`: the context header and context,
      then the new message as a `User:` line, then the closing instruction. */
  function GeminiPrompt(history: seq<Message>, userMessage: string): (p: string)
    ensures StartsWith(p, "Context:\n" + GeminiContext(history) + "\nUser: ")
    ensures EndsWith(p, userMessage + "\nRespond as Saqib.")
    ensures |p| == |"Context:\n" + GeminiContext(history) + "\nUser: "| + |userMessage + "\nRespond as Saqib."|
  {
    var head := "Context:\n" + GeminiContext(history) + "\nUser: ";
    var tail := userMessage + "\nRespond as Saqib.";
    assert (head + tail)[..|head|] == head;
    assert (head + tail)[|head|..] == tail;
    head + tail
  }

  /** Only the last five turns reach Gemini. */
  lemma GeminiIgnoresOlderTurns(older: seq<Message>, recent: seq<Message>, userMessage: string)
    requires |recent| >= GeminiHistoryTurns
    ensures GeminiPrompt(older + recent, userMessage) == GeminiPrompt(recent, userMessage)
  {
    LastNIgnoresOlder(older, recent, GeminiHistoryTurns);
  }

  /** With no earlier turns the context is empty. */
  lemma GeminiPromptWithoutHistory(userMessage: string)
    ensures GeminiPrompt([], userMessage) == "Context:\n\nUser: " + userMessage + "\nRespond as Saqib."
  {
  }

  // ---------------------------------------------------------------------------
  // Routing and fallback (`generateSaqibResponse`)
  // ---------------------------------------------------------------------------

  const GeminiKeyPrefix: string := "AIza"
  const GeminiModel: string := "gemini-3-flash-preview"
  const OpenRouterModel: string := "deepseek/deepseek-r1:free"
  const OpenRouterTemperature: real := 0.7
  const OpenRouterMaxTokens: nat := 500
  const EmptyReplyText: string := "Processing complete. Awaiting input."

  predicate StartsWith(s: string, prefix: string) {
    |prefix| <= |s| && s[..|prefix|] == prefix
  }

  /** What is sent to the remote backend. The Gemini client is built from
      `API_KEY` itself, not from the key the routing looked at. */
  datatype Request =
    | GeminiRequest(apiKey: Option<string>, model: string, systemInstruction: string, prompt: string)
    | OpenRouterRequest(authorization: string, model: string, messages: seq<ChatMessage>,
                        temperature: real, maxTokens: nat)

  /** What the backend produced: a reply text (for OpenRouter, the first
      choice's content after its reasoning block is removed), or a failure
      (a thrown error or a non-2xx status). */
  datatype RemoteOutcome = Replied(text: string) | Failed

  /** The request `generateSaqibResponse` sends, or None when there is no key
      and nothing is sent. */
  function Dispatch(env: Environment, history: seq<Message>, userMessage: string): (req: Option<Request>)
    ensures req.None? <==> GetApiKey(env) == ""
    ensures req.Some? ==> (req.value.GeminiRequest? <==> StartsWith(GetApiKey(env), GeminiKeyPrefix))
    ensures req.Some? && req.value.GeminiRequest? ==>
      req.value.prompt == GeminiPrompt(history, userMessage)
      && req.value.apiKey == (if env.ProcessEnv? then env.apiKey else None)
      && req.value.model == "gemini-3-flash-preview"
      && req.value.systemInstruction == SystemInstruction
    ensures req.Some? && req.value.OpenRouterRequest? ==>
      req.value.authorization == "Bearer " + GetApiKey(env)
      && req.value.messages == OpenRouterMessages(history, userMessage)
      && req.value.model == "deepseek/deepseek-r1:free"
      && req.value.temperature == 0.7 && req.value.maxTokens == 500
  {
    var key := GetApiKey(env);
    if key == "" then None
    else if StartsWith(key, GeminiKeyPrefix) then
      Some(GeminiRequest(env.apiKey, GeminiModel, SystemInstruction, GeminiPrompt(history, userMessage)))
    else
      Some(OpenRouterRequest("Bearer " + key, OpenRouterModel, OpenRouterMessages(history, userMessage),
                             OpenRouterTemperature, OpenRouterMaxTokens))
  }

  /** `generateSaqibResponse`, given how the remote backend would answer each
      request. */
  function GenerateSaqibResponse(env: Environment, history: seq<Message>, userMessage: string,
                                 remote: Request -> RemoteOutcome): (r: string)
    ensures r != ""
    ensures Dispatch(env, history, userMessage).None? ==> r == GetLocalResponse(userMessage)
    ensures Dispatch(env, history, userMessage).Some? ==>
      match remote(Dispatch(env, history, userMessage).value)
      case Failed => r == GetLocalResponse(userMessage)
      case Replied(text) => r == (if text == "" then EmptyReplyText else text)
  {
    match Dispatch(env, history, userMessage)
    case None => GetLocalResponse(userMessage)
    case Some(req) =>
      match remote(req)
      case Failed => GetLocalResponse(userMessage)
      case Replied(text) => if text == "" then EmptyReplyText else text
  }

  /** Without a key the remote backend is never consulted. */
  lemma NoKeyNeverCallsRemote(env: Environment, history: seq<Message>, userMessage: string,
                              remote1: Request -> RemoteOutcome, remote2: Request -> RemoteOutcome)
    requires GetApiKey(env) == ""
    ensures GenerateSaqibResponse(env, history, userMessage, remote1)
         == GenerateSaqibResponse(env, history, userMessage, remote2)
         == GetLocalResponse(userMessage)
  {
  }

  /** A failing backend gives the user exactly the reply they would have had
      with no key configured at all. */
  lemma RemoteFailureMatchesOffline(env: Environment, history: seq<Message>, userMessage: string,
                                    remote: Request -> RemoteOutcome)
    requires forall req :: remote(req) == Failed
    ensures GenerateSaqibResponse(env, history, userMessage, remote)
         == GenerateSaqibResponse(NoProcessEnv, history, userMessage, remote)
  {
  }

  /** A key of one to five UTF-16 code units is reported OFFLINE but still
      sent to a remote backend. */
  lemma ShortKeyOfflineYetRemote(env: Environment, history: seq<Message>, userMessage: string)
    requires 0 < Utf16Length(GetApiKey(env)) <= 5
    ensures GetSystemStatus(env) == Offline
    ensures Dispatch(env, history, userMessage).Some?
  {
  }

  /** When only `OPENROUTER_API_KEY` is set and it starts with `AIza`, the
      request is routed to Gemini, whose client gets no key. */
  lemma GeminiKeyComesFromApiKeyOnly(openRouterKey: string, history: seq<Message>, userMessage: string)
    requires StartsWith(openRouterKey, GeminiKeyPrefix)
    ensures var req := Dispatch(ProcessEnv(None, Some(openRouterKey)), history, userMessage);
      req.Some? && req.value.GeminiRequest? && req.value.apiKey == None
  {
  }
}
