# Coloring-book generator: a Dafny model of its logic

The application asks a hosted AI service for a list of subjects on a theme,
builds one image prompt for a cover and one per subject, shows the images,
exports them as an A4 PDF, and offers a chat widget. This project models the
parts of it that are logic rather than markup or SDK calls, and proves what
they promise:

- **PDF text helpers** (`services/fontUtils.ts`): the CJK character test and
  the font choice built on it, the text cleaner (drop `<` `>`, turn line
  breaks into spaces, trim), and the truncate-with-ellipsis loop, with the
  PDF library's text measurement as a function parameter.
- **Subject parsing and prompts** (`services/geminiService.ts`): the text
  model's reply split on commas, trimmed, cut to five; the cover prompt and
  the page prompts with their shared style suffix; one image request per
  prompt; and the lazily created chat session whose send failures turn into a
  fallback reply.
- **PDF assembly** (`services/pdfService.ts`): the fixed A4 layout, one page
  per image in order with a text notice when the PDF library rejects an image,
  and the file name.
- **Chat widget state** (`components/Chatbot.tsx`): the transcript, the
  input, the loading flag and the connection-error flag, with the transitions
  of the open effect, `handleSend` and `clearChat`.

Files: `jsstrings.dfy` (the JavaScript string built-ins the core relies on:
`trim`, `\s`, `split`, `toLowerCase`), `font_utils.dfy`,
`gemini_service.dfy`, `pdf_service.dfy`, `chatbot.dfy`, and `wrappers.dfy`
(an `Option` type).

Strings are sequences of code points. The remote models are parameters: the
text model is a function `generateContent` from a `TextRequest` to an
optional reply text, where `None` stands for a rejected request or a
response without text. The chat session's outcome is passed to
`GetChatbotResponse` as a `SendResult` and a `createOk` flag. The PDF library's decoder is a parameter `decodes: string -> bool`, and
its text measurement is a parameter `width: string -> real`. The clock is
a parameter too: message ids are built from time stamps that callers pass in.
The layout values are exact, so they are `real`s.

A reply with fewer than five items gives fewer than five subjects: nothing
tops the list up (`ParseJoined`).

Two consequences of the code, proved here:

- `getChatbotResponse` catches every send failure and resolves to its own
  fallback text. The widget's `catch` branch therefore runs only when creating
  the chat session throws. A failed send shows "Oops! I'm having a little
  trouble…" and leaves the connection-error banner off. The widget's apology
  text and banner appear only when session creation fails. `HandleSend` states
  both outcomes.
- `truncateTextForPdf` can shorten text that fits without the ellipsis,
  because the loop measures `text + "..."` (`FittingTextCanBeTruncated`). The
  function can also return a string equal to `text` after the loop has cut
  it, when the kept prefix plus `"..."` spells the text again
  (`TruncationCanSpellTextAgain`).

## Model

| member | source | states |
|---|---|---|
| `JsStrings.Trim` | services/fontUtils.ts:72 | the result is the input minus a whitespace-only head and tail, using the ECMAScript whitespace and line-terminator set, and neither of its ends is whitespace |
| `JsStrings.TrimEmptyIff` | components/Chatbot.tsx:40 | `input.trim() === ''` holds exactly when every character of the input is whitespace |
| `JsStrings.TrimOfTrimmed` | services/fontUtils.ts:72 | trimming a string whose ends are not whitespace returns it unchanged |
| `JsStrings.TrimIdempotent` | services/fontUtils.ts:72 | trimming twice is trimming once |
| `JsStrings.TrimAddsNothing` | services/geminiService.ts:29 | a character missing from a string is missing from its trim |
| `JsStrings.Split` | services/geminiService.ts:29 | `split(',')` gives one more piece than there are commas (so `""` gives `[""]`), and no piece contains a comma |
| `JsStrings.JoinSplit` | services/geminiService.ts:29 | joining the pieces back with the separator gives the original string |
| `JsStrings.SplitJoin` | services/geminiService.ts:29 | splitting a join of separator-free pieces gives back the same pieces, empty ones included |
| `JsStrings.LowerChar` | services/pdfService.ts:30 | each capital A–Z and each Latin-1 capital U+00C0–U+00DE except U+00D7 becomes the letter 32 code points above it; every other character is kept. It neither creates nor removes whitespace |
| `JsStrings.ToLower` | services/pdfService.ts:30 | `toLowerCase` keeps the length and lower-cases each character in place |
| `JsStrings.ReplaceWhitespace` | services/pdfService.ts:30 | `replace(/\s/g, c)` keeps the length, puts `c` at every whitespace position and keeps every other character |
| `FontUtils.ContainsChinese` | services/fontUtils.ts:45-50 | true exactly when some character is in U+4E00..U+9FFF; false for the empty string |
| `FontUtils.GetFontForText` | services/fontUtils.ts:55-60 | "NotoSansCJKSC" exactly when the text has a CJK ideograph, "helvetica" exactly when it has none |
| `FontUtils.RemoveAngles` | services/fontUtils.ts:70 | no `<` or `>` is left, the result is shorter than the input by exactly the number of `<` and `>` in it, and text without them is returned unchanged |
| `FontUtils.RemoveAnglesAppend` | services/fontUtils.ts:70 | removing angle brackets distributes over concatenation, so every other character is kept, in order |
| `FontUtils.FlattenLineBreaks` | services/fontUtils.ts:71 | the length is kept, no `\r` or `\n` is left, each of them is replaced by one space in its place, and every other character stays where it was |
| `FontUtils.EncodePdfText` | services/fontUtils.ts:65-73 | empty input gives "". The output has no `<`, `>`, `\r` or `\n`, and no whitespace at either end. It is the angle-free, line-break-flattened text with only whitespace cut from its two ends |
| `FontUtils.EncodePdfTextIdempotent` | services/fontUtils.ts:65-73 | encoding encoded text changes nothing |
| `FontUtils.KeptLength` | services/fontUtils.ts:89-91 | the loop keeps the longest prefix whose width with "..." is at most the limit, or no character when none fits; the loop stops |
| `FontUtils.KeptLengthUnique` | services/fontUtils.ts:89-91 | any length with those two properties is the kept length |
| `FontUtils.Truncated` | services/fontUtils.ts:84-93 | the result is empty exactly when the text is, and it is at most three characters longer than the text |
| `FontUtils.TruncateTextForPdf` | services/fontUtils.ts:78-94 | empty text gives "". Text that fits with "..." is returned whole. Otherwise the result is a strict prefix of the text followed by "...", and that prefix is the longest one that fits |
| `FontUtils.TruncatedShape` | services/fontUtils.ts:84-93 | the result is "", the text itself, or a strict prefix plus "..." whose prefix is the longest that fits |
| `FontUtils.TruncatedKeepsIffFits` | services/fontUtils.ts:89-93 | the loop drops nothing exactly when the width of text + "..." is within the limit |
| `FontUtils.FittingTextCanBeTruncated` | services/fontUtils.ts:89-93 | text whose own width fits can still be cut, because the loop measures it with "..." |
| `FontUtils.TruncationCanSpellTextAgain` | services/fontUtils.ts:93 | a text the loop did cut can come back equal to the input |
| `GeminiService.SubjectPrompt` | services/geminiService.ts:22 | the subject request quotes the theme |
| `GeminiService.SubjectRequest` | services/geminiService.ts:22-27 | the subject question goes to the text model `gemini-2.5-flash` |
| `GeminiService.ParseSubjects` | services/geminiService.ts:29 | there are 1 to 5 subjects, min(5, commas + 1) of them. Subject i is piece i of the reply with whitespace trimmed from its ends, and no subject contains a comma |
| `GeminiService.SubjectsComeFromReply` | services/geminiService.ts:29 | the pieces the subjects are trimmed from join back, with commas, into the reply |
| `GeminiService.NoCommaOneSubject` | services/geminiService.ts:29 | a reply without a comma gives exactly one subject, the trimmed reply |
| `GeminiService.ParseJoined` | services/geminiService.ts:29 | comma-free items joined by commas parse to the first five items, trimmed, in order. Empty items are kept and nothing is added |
| `GeminiService.CoverPrompt` | services/geminiService.ts:31 | the cover prompt starts "Coloring book cover" |
| `GeminiService.CoverPromptShape` | services/geminiService.ts:31 | starts "Coloring book cover". It quotes the child's name, the title "<name>'s Coloring Book" and the theme, and it ends with the style suffix |
| `GeminiService.PagePrompt` | services/geminiService.ts:33-35 | a page prompt starts "Coloring book page featuring a " followed by the subject |
| `GeminiService.PagePromptShape` | services/geminiService.ts:33-35 | starts "Coloring book page featuring a <subject>", quotes the theme, ends with the style suffix |
| `GeminiService.PagePromptInjective` | services/geminiService.ts:33-35 | for one theme, different subjects give different page prompts |
| `GeminiService.CoverIsNoPage` | services/geminiService.ts:31-35 | the cover prompt never equals a page prompt |
| `GeminiService.BuildPrompts` | services/geminiService.ts:31-37 | 1 + \|subjects\| prompts: the cover first, then one page prompt per subject, in order |
| `GeminiService.PromptsEndWithStyle` | services/geminiService.ts:31-37 | every prompt, the cover's and each page's, ends with the style suffix |
| `GeminiService.PagesFor` | services/geminiService.ts:29-46 | two to six entries, one per prompt, in order: the cover, then one page per parsed subject. Each carries its prompt unchanged and an image request to `imagen-4.0-generate-001` for that same prompt |
| `GeminiService.GenerateColoringPages` | services/geminiService.ts:20-47 | fails exactly when the subject request to the text model fails; otherwise gives the entries built from its reply |
| `GeminiService.OnlyFirstIsCover` | services/geminiService.ts:37-46 | no entry after the first carries the cover prompt |
| `GeminiService.ChatClient.constructor` | services/geminiService.ts:10 | no chat session exists at first |
| `GeminiService.ChatClient.GetChatbotResponse` | services/geminiService.ts:49-66 | the session is created once and then reused. A send failure resolves to the fixed fallback text. The promise rejects only when creating the session fails |
| `PdfService.ImageLayout` | services/pdfService.ts:9-15 | the image is 180×180 at x = 15, y = 117/2, with 15 left and right and equal space above and below on the 210×297 page |
| `PdfService.FallbackMark` | services/pdfService.ts:26 | the notice is the text "Could not load image.", centred at (105, 148.5) |
| `PdfService.PageFor` | services/pdfService.ts:21-27 | a page holds one mark: the image as a JPEG in the fixed square when the library accepts it, otherwise the centred notice |
| `PdfService.PdfDocument.constructor` | services/pdfService.ts:8 | a new document has one empty page |
| `PdfService.PdfDocument.AddPage` | services/pdfService.ts:19 | adds one empty page at the end and changes nothing else |
| `PdfService.PdfDocument.AddImage` | services/pdfService.ts:22 | draws the image on the current page, or fails and draws nothing |
| `PdfService.PdfDocument.Text` | services/pdfService.ts:26 | writes the text on the current page |
| `PdfService.PdfDocument.Save` | services/pdfService.ts:30 | records the file name and leaves the pages alone |
| `PdfService.PdfFileName` | services/pdfService.ts:30 | the name is \|childName\| + 18 long, ends in "-coloring-book.pdf" and has no whitespace. Each character of the child's name becomes '-' if it is whitespace, else its lower case |
| `PdfService.FileNameIgnoresCaseAndSpacing` | services/pdfService.ts:30 | names that differ only in letter case or in which whitespace characters they use give the same file name |
| `PdfService.GeneratePdf` | services/pdfService.ts:6-31 | max(1, \|images\|) pages, and page k holds image k or, if inserting it failed, the notice. A failure does not affect other pages, no images gives one blank page, and the document records that it was saved under `PdfFileName(childName)` |
| `Chatbot.SendAccepted` | components/Chatbot.tsx:40 | a send goes ahead exactly when the input has a non-whitespace character and no request is in flight |
| `Chatbot.ReplyMessage` | components/Chatbot.tsx:55-69 | the model's message is stamped one millisecond after the send; it carries the reply, or the connection apology when the response rejected |
| `Chatbot.ChatWidget.constructor` | components/Chatbot.tsx:13-37 | a widget mounted open holds only the welcome message, one mounted closed holds none. The input is empty and both flags are off |
| `Chatbot.ChatWidget.SetOpen` | components/Chatbot.tsx:29-37 | opening with an empty transcript seeds the welcome message ("initial", model, the welcome text). Opening with a non-empty transcript changes nothing |
| `Chatbot.ChatWidget.Type` | components/Chatbot.tsx:149 | typing replaces the input |
| `Chatbot.ChatWidget.BeginSend` | components/Chatbot.tsx:39-50 | blank input or a request in flight changes nothing. Otherwise the raw, untrimmed input is appended as a user message and the input is cleared. Loading is set and the connection error is cleared |
| `Chatbot.ChatWidget.FinishSend` | components/Chatbot.tsx:52-73 | one model message is appended: the reply, or on rejection the apology with the connection error set. Loading ends and earlier messages are untouched |
| `Chatbot.ChatWidget.ClearChat` | components/Chatbot.tsx:83-89 | the transcript becomes the welcome message alone. Input, loading and connection error are untouched |
| `Chatbot.ChatWidget.HandleSend` | components/Chatbot.tsx:39-74 | an accepted send grows the transcript by exactly two: the user message, then the reply. Nothing before them changes and loading ends. The error flag is raised only if creating the chat session failed. The widget stays open. After an accepted send the client holds the session exactly when there is no error, and it has forwarded the typed text exactly then; a refused send forwards nothing |

All class methods keep an invariant (`Valid`). For the widget it says the
transcript, once there is one, starts with the welcome message, and that
there is one while the widget is open or a request is in flight. For the chat
client it says the session is created at most once. For the PDF document it
says there is always a current page.

## Left out

- The remote calls `generateImages`, `chats.create` and `sendMessage` are not modelled: an image request is represented by its model name and prompt, and the chat outcomes are parameters. `generateContent` is a function parameter whose `None` is a rejected request.
- The `API_KEY` check at module load and the image configuration object are left out: both are environment and SDK configuration.
- The embedded font data and its metadata are left out; only the family name "NotoSansCJKSC" is kept.
- The PDF library's internals are left out: image decoding, text rendering, page size handling and the actual file write. `addImage` fails as a function of the image data only, and a failed `addImage` is assumed to draw nothing.
- `getTextWidth` is an uninterpreted `width` parameter because it measures in floating point. The unused `fontSize` parameter is kept as in the source.
- JsStrings.LowerChar: lower-cases only A–Z and the Latin-1 capitals U+00C0–U+00DE (except U+00D7). Other scripts and case mappings that change the length (such as U+0130) are not modelled, so the file-name length rests on this subset.
- FontUtils.TruncateTextForPdf: works on code points. JavaScript's `slice(0, -1)` removes one UTF-16 unit and can split a surrogate pair; that is not modelled. The CJK test is exact either way, because U+4E00..U+9FFF lies in the BMP and outside the surrogate range.
- GeminiService.GenerateColoringPages: the image requests are started at once in the source and awaited by the caller. Their results, and the caller's `Promise.all`, are not modelled. A response without `text` makes `.split` throw, so it rejects like a failed request and is folded into the same `None`.
- GeminiService.ChatClient.GetChatbotResponse: the session's own conversation history, kept inside the SDK, is not modelled; only the messages forwarded to it are recorded.
- GeminiService.ChatClient.GetChatbotResponse: a send that succeeds with no `text` resolves to `undefined` in the source; the model's `Replied` always carries a string, so that case is not modelled.
- `App.tsx` is not part of this model: it is React state and rendering around the services. Its data-URI wrapping and its MIME tag ("image/png" while the PDF inserts "JPEG") are not modelled.
- The markup-only components are not part of this model: `icons.tsx`, `Header.tsx`, `LoadingSpinner.tsx`, `ImageGrid.tsx` and `InputForm.tsx`.
- The chat widget's rendering is left out: the delayed autoscroll, the `Enter` key handler (it calls the same send) and the undefined `inputError` and `MAX_MESSAGE_LENGTH` references. No length limit is enforced anywhere in the code.
- Chatbot.ChatWidget.BeginSend: message ids are `Date.now()` strings in the source and are modelled as time stamps passed in (`Stamp(t)`, and `Stamp(t + 1)` for replies). Two sends in the same millisecond could repeat an id; that is not modelled.
- Chatbot.ChatWidget.HandleSend: runs the two halves of `handleSend` with nothing in between. In the application `clearChat` can run while a request is in flight; `BeginSend` and `FinishSend` model that case separately, and `FinishSend` then appends the reply after the welcome message.
- The scripts `test-functionality.js` and `test-pdf.js` run against the live services and are not part of this model.
