# Saqib AI Nexus — reply selection and particle intro, modelled in Dafny

The application is a personal landing page. It has an animated intro, in
which the word "SAQIB" is drawn as coloured particles while two glowing
agents circle it, and a chat widget that answers as "Saqib". This project
models the two parts of it that carry discrete logic:

* **Reply selection and request shaping** (`chat_reply.dfy`, module
  `ChatReply`). This covers:
  * the local keyword classifier `getLocalResponse` and its five canned
    replies;
  * the choice of credential (`getApiKey`) and the ONLINE/OFFLINE status;
  * the routing of `generateSaqibResponse`: a key starting with `AIza` goes
    to Gemini, any other non-empty key to OpenRouter, and every failure falls
    back to the local reply;
  * the OpenRouter message list and the Gemini context prompt, built from the
    last 10 and the last 5 turns respectively.

  The remote backends are a function parameter `remote: Request ->
  RemoteOutcome`, which answers each request with a reply text or a failure.
  These are pure functions with lemmas.
* **Particle intro bookkeeping** (`particle_intro.dfy`, module
  `ParticleIntro`). This is imperative, written as classes:
  * `ParticleField.InitParticles` walks the RGBA byte buffer of the rendered
    glyph on a stride-4 grid. It pushes one particle for each sampled pixel
    whose alpha byte exceeds 128, with nested loops and invariants.
  * `ParticleField`'s constructor creates the two agents.
  * `Agent.MoveTo` maintains the bounded trail by pushing a position, then
    shifting the oldest out when the trail is over 40 entries.
  * `ParticleField.ParticleFill` implements the rule that gives a particle
    the colour of the last agent in range.
* `sequences.dfy` (module `Sequences`) holds `LastN`, which models
  JavaScript's `slice(-n)`. The chat context and the agent trail share it.

The specification side is a set of plain functions and predicates:
* `MaskCells`, the opaque grid cells in sampling order;
* `SpawnedFrom`;
* `PushBounded`, `Trail` and `LastN`;
* `FillRule`.

The methods are proved against these, and the properties the code promises
are proved about the functions as lemmas. Those properties include:
* the particle count;
* row-major order;
* the bounds of buffer indices;
* that the trail is exactly the last 40 positions;
* that the fill is unique.

## Model

| member | source | states |
|---|---|---|
| ChatReply.Lower | services/geminiService.ts:28 | lower-casing keeps the length and maps each character to its ASCII lower case |
| ChatReply.LowerIdempotent | services/geminiService.ts:28 | lower-casing twice is the same as lower-casing once |
| ChatReply.LowerOfUpper | services/geminiService.ts:28 | lower-casing an upper-cased string gives the lower-cased original |
| ChatReply.Includes | services/geminiService.ts:29-32 | `includes` holds exactly when the needle occurs at some position of the string |
| ChatReply.FallbackText | services/geminiService.ts:19-25 | each category's reply is one of the five canned texts and is non-empty |
| ChatReply.FallbackTextInjective | services/geminiService.ts:19-25 | the five canned texts are pairwise different, so a reply identifies its category |
| ChatReply.Classify | services/geminiService.ts:29-33 | greeting exactly when a greeting keyword occurs; who only when no greeting keyword occurs; tech only when neither occurs; help only when none of the earlier ones occurs; default exactly when none of the nine keywords occurs |
| ChatReply.GetLocalResponse | services/geminiService.ts:27-34 | the reply is always one of the five canned texts; each category's text is given exactly when the lower-cased input holds one of its keywords and none of an earlier category (greeting, then who, then tech, then help), and the default text exactly when it holds no keyword |
| ChatReply.LocalResponseIgnoresCase | services/geminiService.ts:28 | inputs equal up to ASCII case get the same reply, including the lower-cased and upper-cased forms of an input |
| ChatReply.GetApiKey | services/geminiService.ts:37-47 | the key is `API_KEY` when it is set and non-empty, else `OPENROUTER_API_KEY` when that is, else ""; it is "" when `process.env` is unavailable |
| ChatReply.Utf16Length | services/geminiService.ts:52 | `.length` counts UTF-16 code units: between one and two per character, and exactly one per character when all lie in the Basic Multilingual Plane |
| ChatReply.GetSystemStatus | services/geminiService.ts:49-53 | ONLINE exactly when the chosen key is longer than 5 UTF-16 code units (more than 5 characters for a key in the Basic Multilingual Plane); an empty key is OFFLINE |
| ChatReply.AstralKeyOnline | services/geminiService.ts:52 | a key of three characters outside the Basic Multilingual Plane has length 6 and is reported ONLINE |
| ChatReply.ToChatMessages | services/geminiService.ts:85-88 | one entry per turn, in order, with the same text; `model` becomes `assistant` and every other role becomes `user` |
| ChatReply.Framed | services/geminiService.ts:83-90 | a leading message, the turns relayed one for one in their order, then a trailing message |
| ChatReply.OpenRouterMessages | services/geminiService.ts:83-90 | the list has min(len(history), 10) + 2 entries: first the system instruction, then the last min(len(history), 10) turns in their order with roles remapped, then the user message |
| ChatReply.OpenRouterIgnoresOlderTurns | services/geminiService.ts:85 | turns older than the last ten never change the message list |
| ChatReply.ContextLine | services/geminiService.ts:62 | a user turn is labelled `User: ` and any other turn `Saqib: `, followed by the text |
| ChatReply.ContextLines | services/geminiService.ts:62 | one labelled line per turn, in order |
| ChatReply.JoinLines | services/geminiService.ts:62 | joining no lines gives the empty string, one line gives that line, and more lines give the earlier lines joined, a newline, then the last line |
| ChatReply.SplitJoinLines | services/geminiService.ts:62 | joining a non-empty list of lines (each possibly empty, none holding a newline) with "\n" and splitting the result on "\n" gives the list back |
| ChatReply.GeminiContext | services/geminiService.ts:62 | the context is the labelled lines of the last min(len(history), 5) turns, oldest first, joined with "\n"; it is empty without history, and when no turn text holds a newline, splitting it on "\n" gives exactly those lines back |
| ChatReply.GeminiPrompt | services/geminiService.ts:63 | the prompt starts with `Context:\n`, the context and `\nUser: `, ends with the user message followed by `\nRespond as Saqib.`, and its length is the sum of those two parts, so nothing lies between them |
| ChatReply.GeminiIgnoresOlderTurns | services/geminiService.ts:62 | turns older than the last five never change the prompt |
| ChatReply.GeminiPromptWithoutHistory | services/geminiService.ts:62-63 | with no history the prompt is `Context:\n\nUser: <msg>\nRespond as Saqib.` |
| ChatReply.Dispatch | services/geminiService.ts:125-141 | nothing is sent exactly when the key is empty; Gemini is used exactly when the key starts with `AIza`, with the prompt, `API_KEY` as its client key, model `gemini-3-flash-preview` and the system instruction (lines 66-69); otherwise OpenRouter is used, with `Bearer <key>`, the OpenRouter message list, model `deepseek/deepseek-r1:free`, temperature 0.7 and at most 500 tokens (lines 100-104) |
| ChatReply.GenerateSaqibResponse | services/geminiService.ts:125-146 | the reply is never empty; without a key it is the local reply; after a remote failure it is the local reply; after a remote reply it is that text, or "Processing complete. Awaiting input." when the text is empty |
| ChatReply.NoKeyNeverCallsRemote | services/geminiService.ts:128-131 | with an empty key the reply is the local reply whatever the backends would answer |
| ChatReply.RemoteFailureMatchesOffline | services/geminiService.ts:142-145 | when every remote call fails, the reply equals the one given with no key at all |
| ChatReply.ShortKeyOfflineYetRemote | services/geminiService.ts:125-141 | a key of 1 to 5 UTF-16 code units is reported OFFLINE (line 52) but a request is still sent |
| ChatReply.GeminiKeyComesFromApiKeyOnly | services/geminiService.ts:59 | when only `OPENROUTER_API_KEY` is set and starts with `AIza`, Gemini is chosen but its client gets no key |
| Sequences.LastN | services/geminiService.ts:62 | for n > 0 (every use passes 5, 10 or a positive trail limit), `slice(-n)` keeps min(len(s), n) elements, and they are the last ones of `s`; n = 0 gives the empty list here, unlike `slice(-0)` |
| Sequences.LastNIgnoresOlder | services/geminiService.ts:85 | elements before the last n never reach `slice(-n)` |
| ParticleIntro.Channel | components/ParticleIntro.tsx:93-95 | a colour channel drawn from [0, 1) lies in 55..254 |
| ParticleIntro.NewParticle | components/ParticleIntro.tsx:93-108 | the new particle targets its pixel, is at rest and active, has a bright colour and a size in [1, 3), and starts inside the viewport |
| ParticleIntro.StrideCount | components/ParticleIntro.tsx:88-89 | the number of stride-4 steps below n |
| ParticleIntro.StartCoord | components/ParticleIntro.tsx:99-100 | a start coordinate drawn from [0, 1) lies inside [0, extent] of the viewport |
| ParticleIntro.ParticleSize | components/ParticleIntro.tsx:105 | a size drawn from [0, 1) lies in [1, 3) |
| ParticleIntro.RowStartIsProduct | components/ParticleIntro.tsx:90 | counting w pixels per row, the row start of row y is y*w |
| ParticleIntro.OpaqueIsAlphaTest | components/ParticleIntro.tsx:90-91 | on a buffer of 4*w*h bytes, `Opaque` holds for pixel (x, y) exactly when the byte at (y*w + x)*4 + 3, which lies inside the buffer, exceeds 128 |
| ParticleIntro.AlphaIndexInBuffer | components/ParticleIntro.tsx:83-91 | the alpha byte read for pixel (x, y) is at (y*w + x)*4 + 3, and that index lies inside the 4*w*h bytes of the image data |
| ParticleIntro.RowHitsAre | components/ParticleIntro.tsx:89-109 | a row's hits are exactly the opaque stride columns sampled so far, left to right |
| ParticleIntro.GridHitsMember | components/ParticleIntro.tsx:88-109 | a cell is among the hits of the first rows exactly when it is an opaque on-grid pixel in one of them |
| ParticleIntro.GridHitsMembers | components/ParticleIntro.tsx:88-109 | the hits of the first rows are exactly the opaque on-grid pixels in those rows |
| ParticleIntro.GridHitsOrdered | components/ParticleIntro.tsx:88-109 | hits come in row-major order: `y` outer, `x` inner |
| ParticleIntro.MaskCellsAre | components/ParticleIntro.tsx:88-109 | the sampled cells are exactly the on-grid pixels whose alpha exceeds 128, in row-major order |
| ParticleIntro.MaskCellCount | components/ParticleIntro.tsx:88-109 | the number of particles equals the number of on-grid pixels whose alpha exceeds 128 |
| ParticleIntro.SpawnHit | components/ParticleIntro.tsx:91-108 | sampling an opaque pixel pushes the particle for that cell with the next random draw |
| ParticleIntro.SpawnMiss | components/ParticleIntro.tsx:91 | sampling a transparent pixel pushes nothing |
| ParticleIntro.SpawnedParticlesAre | components/ParticleIntro.tsx:88-109 | one particle per opaque grid pixel, each targeting it (multiples of 4 inside the viewport), in row-major order, bright and sized in [1, 3) when the draws are |
| ParticleIntro.ParticleField.InitParticles | components/ParticleIntro.tsx:69-115 | nothing changes for a viewport of size ≤ 0; a failed pixel read leaves an empty list; otherwise the list is rebuilt from scratch, with one particle per sampled opaque pixel, the k-th made from the k-th draw; the two agents are untouched and stay valid |
| ParticleIntro.PushBounded | components/ParticleIntro.tsx:169-172 | the trail after one push is a suffix of the old trail plus the new position; it grows by one while below the limit and otherwise keeps its length, dropping only the oldest entry |
| ParticleIntro.PushBoundedKeepsLastN | components/ParticleIntro.tsx:169-172 | a trail holding the last `limit` positions still does so after one push-then-shift |
| ParticleIntro.PushBoundedWithinLimit | components/ParticleIntro.tsx:169-172 | a trail within its limit stays within it, with the newest position last |
| ParticleIntro.TrailIsLastN | components/ParticleIntro.tsx:169-172 | after k pushes from empty, the trail is the last min(k, limit) positions in insertion order |
| ParticleIntro.Agent.constructor | components/ParticleIntro.tsx:119-140 | an agent starts with an empty trail of limit 40, at speed 0.02, with the given phase, radii and colour |
| ParticleIntro.Agent.MoveTo | components/ParticleIntro.tsx:165-172 | the agent is at the new position; its trail is the push-then-shift update, holds 1 to 40 entries with the newest last, and stays the last 40 positions visited |
| ParticleIntro.ParticleField.constructor | components/ParticleIntro.tsx:119-140 | exactly two distinct agents: phases 0 and π, colours #00C2FF and #FF8F00, both at (0, h/2) with radii 0.4w and 0.25h, empty trails of limit 40; no particles yet |
| ParticleIntro.ParticleField.MoveAgents | components/ParticleIntro.tsx:159-172 | each agent moves to its position for the frame and updates its trail; the trail invariant is kept |
| ParticleIntro.ParticleField.ParticleFill | components/ParticleIntro.tsx:228-246 | the fill is the colour of the last agent in range, with glow 10, or the particle's own colour with glow 0 when no agent is in range |
| ParticleIntro.FillRuleDeterminesFill | components/ParticleIntro.tsx:228-246 | the colour rule allows exactly one fill |
| ParticleIntro.ParticleField.PaintParticles | components/ParticleIntro.tsx:205-249 | one fill per particle, in particle order, each following the colour rule |

## Left out

- Canvas drawing is not modelled: text rendering, `fillRect`, `arc`, strokes, shadows and composite operations. The only part kept is the fill and glow chosen per particle.
- The mouse-repulsion and return-to-base physics (ParticleIntro.tsx lines 207-221) are left out because they are floating point with `sqrt` and `atan2`.
- The Lissajous motion of the agents (lines 165-166) and the `time` accumulator (line 154) are not modelled. `MoveAgents` takes the frame's positions as a parameter.
- Distances are left out: "within 150 of agent i" is a given boolean per agent and particle.
- ParticleIntro.NewParticle: `Math.random()` is a parameter, `draw(k)` for the k-th particle, so no distribution is modelled. Floating-point doubles are modelled as exact reals.
- `requestAnimationFrame`, the resize and mousemove listeners and `document.fonts.ready` are host scheduling and are left out. The viewport size is a constructor argument. The `getImageData` call becomes an `ImageRead` argument, either the bytes or a failure.
- The colour of a particle is a value `Rgb(r, g, b)` rather than the CSS string `rgb(r,g,b)`.
- ParticleIntro.ParticleField.InitParticles: the pixel buffer is read-only input. The glyph rendering that fills it is not modelled.
- `fetch`, the Gemini SDK, JSON parsing and the `console` logging are left out.
- ChatReply.Dispatch: the `HTTP-Referer`, `X-Title` and `Content-Type` headers and Gemini's `thinkingConfig` are not modelled. The backend that would read them is an abstract function here, the headers and `thinkingConfig` are the same in every request of their kind, and the site URL depends on `window`.
- ChatReply.GenerateSaqibResponse: the removal of `<think>…</think>` blocks and the `trim` (line 119) are not modelled. The remote outcome's text is the already-cleaned content. A missing `choices[0].message.content` is a reply with empty text.
- ChatReply.Lower: `toLowerCase` is modelled for ASCII only. Every other character is left unchanged.
- Strings are sequences of Unicode scalar values, while JavaScript strings are UTF-16 code units. Only the key length (line 52) depends on the difference, and `ChatReply.Utf16Length` counts code units for it. Lone surrogates cannot occur in a Dafny string and are not modelled.
- Sequences.LastN: for n = 0 it gives the empty list, while `slice(-0)` gives the whole list. No call passes 0: the history windows are 5 and 10, and a trail limit is positive.
- The message id and timestamp of a turn are dropped because they do not affect any reply.
- components/ChatInterface.tsx, App.tsx and types.ts are not part of this model. They hold UI state, layout and type declarations.
