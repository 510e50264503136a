# Digital-twin chat route, modelled in Dafny

This project models the server side of a personal "digital twin" chat site.
The model covers the chat route `app/api/chat/route.ts` and nothing else.
Each `POST` carries a visitor's message and an optional session id. The route:

- assembles a knowledge base from the files of the `data` directory
  (`loadKnowledgeBase`);
- builds a system prompt that names the persona and lists every document
  under its own heading (`buildSystemPrompt`);
- sends the prompt, the session's earlier turns and the new message to a
  chat-completion model;
- appends the exchange to the session's history, which it caps at 20
  turns, in a process-wide `sessions` map.

The project has five modules, one per file:

- `Wrappers` (`wrappers.dfy`): `Option` and `Result`.
- `Json` (`json.dfy`): parsed JSON values. It covers JavaScript
  truthiness, property reads where the last duplicate key wins, and
  `String(v)` as a template literal shows a value. That conversion throws
  for an object with its own `toString` field, or an array holding one,
  because a parsed `toString` is not callable. `JSON.parse` and
  `JSON.stringify(_, null, 2)` are a `Codec`, a pair of function values
  passed in as a parameter.
- `Knowledge` (`knowledge.dfy`): the loader.
  - The directory is either missing, not listable, or a listing of entries.
    Each entry has a name, what `statSync` reports for it, and its text.
  - The record is insertion-ordered (`order` plus `text`), because
    `Object.entries` order decides where the non-priority documents appear.
    Overwriting a key keeps the key's position.
  - `path.extname` and `path.basename(file, ext)` follow Node's rules for a
    bare file name.
  - The loop `LoadKnowledgeBase` is proved equal to the fold `LoadEntries`.
    Every property of the loaded record is proved about that fold.
- `Prompt` (`prompt.dfy`): the persona, the knowledge sections and the
  template.
  - The two section loops are methods proved equal to `KnowledgeSections`.
  - Each of `full_name` and `name` in the `facts` document replaces its
    default on its own when it is truthy.
  - The prompt is `SystemPrompt`, and `BuildSystemPrompt` is the method
    that loads the base and builds the prompt. Building fails when the load
    throws or when a persona field cannot be shown as text.
- `Chat` (`chat.dfy`): the request handler.
  - `Handle` is the handler as a function from the old store to the
    response and the new store.
  - `SessionStore` is the `sessions` map as a class. Its `Post` method runs
    the handler's steps in the source's order and is proved to agree with
    `Handle`.
  - `Post` keeps every stored history well formed: at most 20 turns, an
    even number, alternating user and assistant, starting with the user.

Points where the model follows the code closely:

- `fs.statSync` is called outside the per-file `try` (route.ts:35). A
  failing stat on any listed entry therefore throws out of
  `loadKnowledgeBase`, and the request answers 500. It is not a per-file
  error that is skipped. A failing `readdirSync` also answers 500.
- The extension is lower-cased for comparison only. The base name is
  stripped with the lower-cased extension, and that match is
  case-sensitive. So `Notes.MD` is recorded under the key `Notes.MD`, not
  under `Notes`.
- The persona fields are read inside the `try` of route.ts:68-74, but they
  are converted to text later, in the template (route.ts:101). A truthy
  field that is an object with its own `toString` field, or an array
  holding one, therefore throws out of `buildSystemPrompt`, and the
  request answers 500 with the conversion error.
- The default full name is written out exactly as the source file has it,
  as the two code points U+00C3 U+00A9 where `é` was meant.

## Model

| member | source | states |
|---|---|---|
| Json.LastValue | app/api/chat/route.ts:69-71 | the value read for a key is the one of the last field with that key; absent when no field has it |
| Json.Truthy | app/api/chat/route.ts:70-71 | JavaScript truthiness of a parsed value: `null`, `false`, `0` and the empty string are falsy; used by `Prompt.Overrides` |
| Json.Field | app/api/chat/route.ts:70-71 | `facts.key`: the last field named key of an object, nothing for any other value; stated by `Json.LastValue` and `Json.LastIndex` |
| Json.LastIndex | app/api/chat/route.ts:69-71 | the position found holds the key and no later field has it; none means no field has the key |
| Json.Show | app/api/chat/route.ts:101-103 | converting a value to text fails exactly when it is, or an array holds, an object with its own `toString` field; a string shows as itself and any other object as `[object Object]` |
| Json.JoinItems | app/api/chat/route.ts:101-103 | joining an array's elements from a position succeeds exactly when every element from there on converts |
| Knowledge.Put | app/api/chat/route.ts:45-47 | storing sets the key's text and no other; a new key is appended to the order, an existing one keeps its place; a well-formed record stays well formed |
| Knowledge.LastDot | app/api/chat/route.ts:39 | the position found holds the last dot of the name; none means the name has no dot |
| Knowledge.ExtName | app/api/chat/route.ts:39 | the extension is empty or a suffix of the name that starts with its only dot and is shorter than the name |
| Knowledge.ExtNameEmpty | app/api/chat/route.ts:39 | the extension is empty exactly when the name is `..` or has no dot after its first character |
| Knowledge.BaseName | app/api/chat/route.ts:40 | `path.basename(file, ext)`; stated by `Knowledge.BaseNameStrips` and `Knowledge.ExtensionByName` |
| Knowledge.BaseNameStrips | app/api/chat/route.ts:40 | the stem followed by the suffix is the name when the name ends with a non-empty suffix; otherwise the name is kept whole |
| Knowledge.LowerAscii | app/api/chat/route.ts:39 | lower-casing keeps the length and lowers each character |
| Knowledge.ExtensionByName | app/api/chat/route.ts:39-40 | the lowered extension equals a dotted extension exactly when the name ends with it ignoring ASCII case; the key is then `Stem`: the name without the extension when its case matches, and the whole name otherwise |
| Knowledge.Contribution | app/api/chat/route.ts:37-48 | what one directory entry records; stated by `Knowledge.ContributionSource`, `Knowledge.ContributionOfText` and `Knowledge.ContributionOfJson` |
| Knowledge.ContributionSource | app/api/chat/route.ts:37-48 | only a regular, readable file whose name ends (ignoring ASCII case) in `.json`, `.md` or `.txt` contributes |
| Knowledge.ContributionOfText | app/api/chat/route.ts:46-47 | a regular, readable `.md` or `.txt` file (ignoring ASCII case) contributes its text verbatim under `Stem(name, ext)`: the name without the extension when its case matches, and the whole name otherwise |
| Knowledge.UpperCaseExtensionExample | app/api/chat/route.ts:39-47 | a readable regular file `Notes.MD` is recorded under the key `Notes.MD`, since `basename` strips only the lower-cased `.md` |
| Knowledge.ContributionOfJson | app/api/chat/route.ts:43-45 | a regular, readable `.json` file (ignoring ASCII case) contributes the re-serialised document under `Stem(name, ".json")` when the text parses, and nothing when it does not |
| Knowledge.LoadEntries | app/api/chat/route.ts:33-54 | the loop as a fold over the listed entries; stated by `Knowledge.LoadFailure`, `Knowledge.LoadValid`, `Knowledge.LoadKeysAt`, `Knowledge.LoadLastAt`, `Knowledge.LoadOrderAt` and `Knowledge.LoadContents` |
| Knowledge.LoadDirectory | app/api/chat/route.ts:22-57 | `loadKnowledgeBase` on a directory; stated by `Knowledge.LoadKnowledgeBase` and `Knowledge.LoadDirectoryValid` |
| Knowledge.LoadKnowledgeBase | app/api/chat/route.ts:22-57 | the loop yields the fold `LoadDirectory`: a missing directory gives the empty record and an unlistable one fails |
| Knowledge.FailureSticks | app/api/chat/route.ts:35 | once a stat has failed, later entries do not change the outcome |
| Knowledge.LoadFailure | app/api/chat/route.ts:33-35 | the load fails exactly when some entry's stat fails, and then with the first such failure |
| Knowledge.LoadValid | app/api/chat/route.ts:24-56 | a loaded record lists each key once and lists exactly its keys |
| Knowledge.LoadKeysAt | app/api/chat/route.ts:42-48 | a key is in the record exactly when some entry contributes it |
| Knowledge.LoadLastAt | app/api/chat/route.ts:45-47 | a key's text is the one the last contributing entry gave |
| Knowledge.LoadContents | app/api/chat/route.ts:22-57 | all keys at once: the record is well formed, its keys are the contributed ones, each text from the last contributor |
| Knowledge.LastContributorWins | app/api/chat/route.ts:45-47 | the entry that contributes a key last, with no later contributor, decides that key's text |
| Knowledge.LoadOrderAt | app/api/chat/route.ts:45-47 | keys are ordered by first contribution; a later file with the same base name replaces the text but not the position |
| Knowledge.LoadDirectoryValid | app/api/chat/route.ts:22-57 | every successful load of a directory is a well-formed record |
| Prompt.PriorityTitle | app/api/chat/route.ts:86 | a priority title upper-cases the first character and keeps the rest |
| Prompt.DashesToSpaces | app/api/chat/route.ts:94 | every `-` becomes a space and every other character is kept |
| Prompt.OtherTitle | app/api/chat/route.ts:94 | an other title upper-cases the first character and turns each later `-` into a space, so no `-` remains after the first |
| Prompt.Filter | app/api/chat/route.ts:84-97 | the kept keys are exactly the listed keys the test accepts |
| Prompt.FilterOrder | app/api/chat/route.ts:84-97 | filtering keeps keys distinct and in their listed order |
| Prompt.EmittedKeysMembership | app/api/chat/route.ts:84-97 | a document gets a section exactly when it is in the record and, for a priority name, has non-empty text |
| Prompt.EmittedKeysOrder | app/api/chat/route.ts:81-97 | sections are distinct; priority documents come first in the fixed order; the others follow in record order |
| Prompt.SectionForKey | app/api/chat/route.ts:86-87 | a document's section is `### title` over its text, with the title rule for its kind |
| Prompt.SectionsLayout | app/api/chat/route.ts:78-97 | the sections text is the priority part then the other part; when the emitted documents are pre, key, post, the section of key under its title sits between the sections of pre and of post |
| Prompt.PrioritySections | app/api/chat/route.ts:84-89 | the first loop renders the present priority documents in the fixed order |
| Prompt.OtherSections | app/api/chat/route.ts:92-97 | the second loop renders the non-priority documents in record order |
| Prompt.BuildSections | app/api/chat/route.ts:78-97 | both loops together give the knowledge sections |
| Prompt.FactsDocument | app/api/chat/route.ts:67-69 | the `facts` document is parsed only when the record has non-empty `facts` text; a parse that throws gives none; used by `Prompt.PersonaDefaults` |
| Prompt.Overrides | app/api/chat/route.ts:70-71 | `facts.key` is present and truthy, so it is taken instead of the default; stated by `Prompt.FactsStringField` |
| Prompt.ResolvePersona | app/api/chat/route.ts:64-75 | the persona the template shows; stated by `Prompt.PersonaFallsBack`, `Prompt.PersonaFromFacts`, `Prompt.PersonaFailure` and `Prompt.PersonaDefaults` |
| Prompt.FactsStringField | app/api/chat/route.ts:69-71 | a `facts` object whose last `key` field is a string gives that string, and it overrides the default exactly when it is non-empty |
| Prompt.PersonaFallsBack | app/api/chat/route.ts:70-71 | each field that the document does not hold as a truthy value keeps its default, whatever the other field is |
| Prompt.PersonaFromFacts | app/api/chat/route.ts:70-71 | each truthy field replaces its default with the value as text, a string verbatim, whatever the other field is |
| Prompt.PersonaFailure | app/api/chat/route.ts:70-71 | resolving the persona throws, with the conversion error, exactly when a truthy field cannot be shown as text |
| Prompt.PersonaDefaults | app/api/chat/route.ts:64-75 | both defaults are used when neither field is truthy, in particular when there is no `facts` document, it does not parse, or it is not an object |
| Prompt.PersonaFullNameOnlyExample | app/api/chat/route.ts:70-71 | `{"full_name": "Jane Q"}` gives full name `Jane Q` and the default short name |
| Prompt.PersonaMixedExample | app/api/chat/route.ts:70-71 | `{"full_name": "Jane Q", "name": 42}` gives `Jane Q` and `42` |
| Prompt.PersonaThrowExample | app/api/chat/route.ts:70-71 | `{"name": {"toString": 1}}` makes resolving the persona fail with the conversion error |
| Prompt.TemplateShows | app/api/chat/route.ts:99-130 | the rendered template shows the full name, the name, the knowledge sections and the time |
| Prompt.TemplateOpens | app/api/chat/route.ts:99-101 | the filled template starts with the source's own text up to the short name: `# Your Role`, a blank line, `You are an AI Agent that is acting as a digital twin of `, the full name, `, who goes by ` and the name |
| Prompt.SystemPrompt | app/api/chat/route.ts:59-131 | the prompt for a loaded record; stated by `Prompt.PromptNamesPersona`, `Prompt.PromptNamesDefaults` and `Prompt.PromptHoldsSections` |
| Prompt.PromptNamesPersona | app/api/chat/route.ts:59-131 | the prompt is built exactly when the persona resolves; it then shows each field as the document gives it when truthy, and the default otherwise, and it opens with the role heading and first sentence naming the resolved full name and then the name |
| Prompt.PromptNamesDefaults | app/api/chat/route.ts:59-131 | when neither field is truthy the prompt is built, names the default full name and short name, and opens with the role heading and first sentence naming them in that order |
| Prompt.PromptHoldsSections | app/api/chat/route.ts:59-131 | a built prompt holds every knowledge section and the current time |
| Prompt.PromptFor | app/api/chat/route.ts:59-131 | `buildSystemPrompt` including its load; stated by `Prompt.PromptForFailure` and `Prompt.BuildSystemPrompt` |
| Prompt.PromptForFailure | app/api/chat/route.ts:59-131 | building the prompt fails exactly when the load throws or the loaded persona cannot be shown |
| Prompt.BuildSystemPrompt | app/api/chat/route.ts:59-131 | the method gives the prompt for the directory, the load's failure, or the conversion error |
| Chat.ResolveSessionId | app/api/chat/route.ts:142 | a truthy supplied id is kept, otherwise the fresh id is used; stated through `Chat.Handle` and `Chat.ResumedSessionSeesHistory` |
| Chat.History | app/api/chat/route.ts:145 | a session's stored history, empty for an unknown id; stated through `Chat.ModelInput` and `Chat.Handle` |
| Chat.ModelInput | app/api/chat/route.ts:148-155 | the model input is the system prompt, then the whole history in order, then the new user message |
| Chat.ReplyText | app/api/chat/route.ts:165 | the reply is the completion text when it is non-empty and the fallback apology otherwise; it is never empty |
| Chat.ErrorMessage | app/api/chat/route.ts:182-186 | a thrown `Error` answers with its message, anything else with the generic text; stated through `Chat.Handle` |
| Chat.KeepLast | app/api/chat/route.ts:171-174 | keeps the newest 20 turns; stated by `Chat.AppendedKeepsNewest` and `Chat.KeepLastAbsorbs` |
| Chat.Appended | app/api/chat/route.ts:168-174 | the history after one exchange; stated by `Chat.AppendedWellFormed`, `Chat.AppendedKeepsNewest` and `Chat.Remember` |
| Chat.Handle | app/api/chat/route.ts:133-187 | 400 exactly when the message is falsy; a bad body answers 500 with its error, a failed prompt build 500 with its reason, a thrown completion 500 with its error message; a reply exactly when the body is good, the message truthy, the prompt built and the completion answered; a reply carries the resolved id and changes only that session, to its history plus the exchange; every failure leaves the store unchanged |
| Chat.AppendedWellFormed | app/api/chat/route.ts:168-174 | one exchange keeps a history alternating and at most 20 turns |
| Chat.HandlePreservesWellFormed | app/api/chat/route.ts:133-187 | a request keeps every stored history well formed |
| Chat.AppendedKeepsNewest | app/api/chat/route.ts:168-174 | the new history is the newest min(n + 2, 20) turns of the old one plus the exchange |
| Chat.ReplayKeepsNewest | app/api/chat/route.ts:168-176 | successive exchanges keep the newest 20 turns of everything said |
| Chat.ExchangesOnFreshSession | app/api/chat/route.ts:168-176 | after N exchanges on a new session the history holds min(2N, 20) turns, the newest ones |
| Chat.Run | app/api/chat/route.ts:133-187 | a series of requests handled one after another, each on the store the previous one left; stated by `Chat.RunReplays` and `Chat.RunKeepsNewest` |
| Chat.RunReplays | app/api/chat/route.ts:142-176 | requests that all reply on one session id each carry that id, and leave the session's history equal to replaying their exchanges onto the history it had before |
| Chat.RunKeepsNewest | app/api/chat/route.ts:142-176 | requests that all reply on one session keep the newest 20 turns of everything said on it; on a new session, N such requests leave min(2N, 20) turns |
| Chat.ResumedSessionSeesHistory | app/api/chat/route.ts:142-174 | a second request that sends back the returned id gives the model the first exchange after the earlier history, and stores its own exchange after it under the same id |
| Chat.Remember | app/api/chat/route.ts:168-174 | both pushes then the slice give the appended, capped history |
| Chat.SessionStore.constructor | app/api/chat/route.ts:19 | the store starts empty and well formed |
| Chat.SessionStore.Post | app/api/chat/route.ts:133-187 | the handler's response and new store are those `Handle` gives for the prompt of the directory; stored histories stay well formed |

## Left out

- The browser page and its components are not part of this model.
- The completion client is not modelled. Its lazy construction, the API key, the model name, `max_tokens` and `temperature` are left out. The completion call is a parameter `infer` that either throws or gives optional content.
- File-system primitives are not modelled. A directory is a value listing the entries, what `statSync` reports for each, and each one's text, which is absent when reading it throws. Path joining with the working directory is left out.
- `JSON.parse` and `JSON.stringify(_, null, 2)` are not modelled; they are the `Codec` parameter. Parsing the request body is the request parameter, a `Result` whose failure is the thrown error's message.
- `crypto.randomUUID()` and `new Date().toISOString()` are inputs: `freshId` and `now`.
- Logging with `console.warn` and `console.error` has no effect on the results and is left out.
- Lower-casing covers ASCII letters only. Upper-casing a title's first letter covers ASCII letters only.
- JSON numbers are integers: there are no floating-point values, and `String` of a number is its decimal digits.
- `message` and `session_id` values that are not strings are not modelled.
- Concurrency between requests is not modelled. A request is atomic against the store.
- In the source, the pushes mutate the stored array in place. The model replaces the stored value instead. No caller can observe the difference, because the source stores the array again right after the pushes.
- Prompt.TemplateShows: after the short name's first interpolation, the instruction prose between the template's interpolations is reduced to line breaks. The headings and every interpolation are kept in the source's order. What is proved is that each interpolated value appears in the prompt; the prose after the first sentence is not stated. The text up to the short name is exact, and `Prompt.TemplateOpens` states it.
- Knowledge.LoadOrderAt: JavaScript lists integer-like keys (such as `2024`) before the other keys of an object. The model keeps every key in insertion order.
- Knowledge.Put: a file whose base name is `__proto__` is stored by the model, but in the source `knowledge["__proto__"] = text` runs the inherited setter, which ignores a string, so that file is dropped. Only that one key is affected; names such as `constructor` or `toString` become ordinary keys in the source as in the model.
- Knowledge.LoadKeysAt: does not hold for the key `__proto__`, as the `Knowledge.Put` line explains.
- Knowledge.LoadLastAt: does not hold for the key `__proto__`, as the `Knowledge.Put` line explains.
- Knowledge.LoadContents: does not hold for the key `__proto__`, as the `Knowledge.Put` line explains.
