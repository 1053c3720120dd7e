# krackedrepo core, modelled in Dafny

krackedrepo turns a source repository into a product pitch. A web page
(App.tsx) or a command-line worker (scripts/worker.ts) gathers the
repository's text files. The files go to `convertRepoToMVP`
(services/geminiService.ts), which builds a prompt from file previews, asks a
hosted model for a JSON product description (`MVPData`) and returns it
parsed. The page shows the result on tabs, keeps a short console log, and
lists backers who "sponsor" the build through a simulated payment dialog
(components/FundingModal.tsx).

Each source file has one module:

- `Types` (types.dfy): the records of types.ts (`FileData`, `TechItem`,
  `MVPData`, `Funder`) as datatypes.
- `GeminiService` (gemini_service.dfy): functions for the key lookup, the
  1000-character previews, the block layout, the join with `\n\n---\n\n`,
  the prompt template and the two guards. The model call is a parameter
  `generate: Request -> Reply`, where a `Reply` is a rejection with its
  message or a response with optional text. A `Conversion` value records how
  a call ends: no key, a rejected call, empty text, or text for
  `JSON.parse`.
- `Worker` (worker.dfy): the directory walk is the `Collector` class. Its
  `out` field is the array the walk pushes into, and `Walk` is the recursive
  method with the loop over a listing. `Walk` is proved against functions
  over a tree of `Node`s. `RunWorker` is the script's top level and returns
  the outcome and the requests sent; `ExitStatus` maps the outcome to the
  process's exit code.
- `App` (app.dfy): the React state hooks are fields of the `Session` class
  and each handler is a method. The log window, the backer total, the icon
  classifier and the preview slug are pure functions with lemmas.
- `FundingModal` (funding_modal.dfy): the dialog's four state fields are in
  the `SponsorForm` class. The two `setTimeout` callbacks are methods the
  environment calls in order. Each pending timer carries the name and amount
  its closure captured.

## Model

| member | source | states |
|---|---|---|
| GeminiService.ResolveApiKey | services/geminiService.ts:6 | The key is `GEMINI_API_KEY` when that is non-empty, else `API_KEY` when that is non-empty, else none. A key that is found is never empty. |
| GeminiService.Preview | services/geminiService.ts:11 | The preview is a prefix of the content of length min(1000, length). Content of at most 1000 characters is kept whole. |
| GeminiService.BlockLayout | services/geminiService.ts:11 | `Block` builds one file's part of the summary. A block is `FILE: `, then the file name, then `\nCONTENT PREVIEW:\n`, then a prefix of the content. The block's length is the sum of those parts. |
| GeminiService.Blocks | services/geminiService.ts:10-11 | There is one block per file, and block i belongs to file i. |
| GeminiService.FileSummary | services/geminiService.ts:10-12 | No files give the empty summary. One file gives its block alone. |
| GeminiService.JoinLayout | services/geminiService.ts:12 | `Join` is `Array.prototype.join`. A join holds each part in order. Exactly one separator sits between neighbours, and nothing comes before the first part or after the last. |
| GeminiService.JoinLength | services/geminiService.ts:12 | A join of n parts is as long as the parts plus n - 1 separators. |
| GeminiService.SummaryLayout | services/geminiService.ts:10-12 | Each file's block sits in the summary in input order. One `\n\n---\n\n` lies between neighbours, and the summary ends with the last block. |
| GeminiService.PromptLayout | services/geminiService.ts:14-30 | `Prompt` interpolates the summary into the template. The prompt is the fixed head, then the summary verbatim, then the fixed tail. Neither fixed part depends on the files. |
| GeminiService.PromptRoundTrip | services/geminiService.ts:27 | The summary can be recovered unchanged from the prompt. |
| GeminiService.ConvertRepoToMVP | services/geminiService.ts:5-74 | Without a key the call fails before any request. With a key it sends the request `RequestFor` builds from the key and the files: model `gemini-1.5-pro`, the prompt, the JSON MIME type and the schema's `required` list (:32-69). A rejected call fails with the call's own message. Absent or empty text fails, and otherwise exactly the returned text is handed on for parsing. |
| GeminiService.RejectionPropagates | services/geminiService.ts:32-69 | A rejection of the model call propagates out of the conversion, and `ErrorMessage` (the message a conversion throws) is the call's own message. Nothing is parsed. |
| GeminiService.KeyCheckPrecedesRequest | services/geminiService.ts:6-8 | Without a usable key the outcome is the missing-key error, whatever the files and the model are, and `ErrorMessage` gives the message thrown at :7. |
| GeminiService.EmptyTextIsRejected | services/geminiService.ts:71-72 | Absent or empty text from the model gives the error whose `ErrorMessage` is "AI failed to generate content", and nothing is parsed. |
| GeminiService.SchemaRequiresMVPFields | services/geminiService.ts:66 | The schema's `required` list is exactly the nine `MVPData` field names, each once. |
| Worker.Ext | scripts/worker.ts:20 | `path.extname`: the name's suffix from its last dot, with no other dot in it. It is empty exactly when the name is `..` or has no dot after its first character. |
| Worker.ToRecord | scripts/worker.ts:23 | A record carries the file's whole text. |
| Worker.ReadableOnly | scripts/worker.ts:21-26 | A file is kept exactly when it is in the input and readable, and never more files are kept than the input has: unreadable files are skipped and the rest go on. |
| Worker.ReadableOnlyAll | scripts/worker.ts:21-26 | Nothing is skipped exactly when every file is readable. |
| Worker.VisitEntriesFailurePersists | scripts/worker.ts:13-18 | Once one entry makes the loop throw, the walk of the whole listing throws. |
| Worker.VisitIsReadableEligible | scripts/worker.ts:12-30 | `Visit`, `VisitEntry` and `VisitEntries` are `walk`, one loop pass and the loop, as functions. The walk succeeds exactly when every directory it opens can be listed. It then records the readable allow-listed files outside pruned directories, in depth-first order. |
| Worker.EligibleIsProper | scripts/worker.ts:16-20 | Every file reached has an allow-listed extension, lies below the start, and has no `node_modules` or `.git` directory on its path. |
| Worker.EligibleEntriesConcat | scripts/worker.ts:14 | The files of a listing come in the order of its entries. |
| Worker.EligibleSubdirectory | scripts/worker.ts:14-18 | A subdirectory's files come where it is listed, after earlier entries' files and before later ones. A pruned subdirectory contributes nothing, whatever it holds. |
| Worker.Collector.constructor | scripts/worker.ts:11 | The collector starts with an empty `out`. |
| Worker.Collector.Walk | scripts/worker.ts:12-30 | `walk` succeeds exactly when the tree function does. On success it appends the records of the visited files, in visiting order, to what `out` held. |
| Worker.CollectFiles | scripts/worker.ts:10-33 | `collectFiles` succeeds exactly when every directory it opens is listable. Its records are those of the readable eligible files in depth-first order. `Collected` is what `collectFiles` resolves to, and it agrees with the method's result. |
| Worker.CollectedRecords | scripts/worker.ts:20-23 | Each record holds the whole text of a readable, allow-listed file outside pruned directories. Its type is that file's extension, which is in the default list, so the `'file'` fallback of `TypeTag` never applies. |
| Worker.CollectedCount | scripts/worker.ts:21-26 | There are at most as many records as eligible files, and exactly as many when all of them are readable. |
| Worker.RunWorker | scripts/worker.ts:35-50 | The exit status (`ExitStatus`) is 1 exactly when no result is printed. An unlistable root, no collected files, a missing key, a rejected call (with its message), empty text or unparsable text each fail. No request is sent when collection fails or finds nothing; with files and a key exactly the one request `RequestFor` builds is sent. The result is printed exactly when the files are non-empty, the conversion returns text and that text parses, and what is printed is the parse of that text (`resultText`). |
| FundingModal.Dollars | components/FundingModal.tsx:69-73 | Every preset button sets one of 50, 100, 250, 500. |
| FundingModal.PresetsCoverAmounts | components/FundingModal.tsx:69 | Each of the four amounts has its button. |
| FundingModal.SponsorName | components/FundingModal.tsx:26 | `name \|\| 'Anonymous'`: the name itself when non-empty, `'Anonymous'` when empty. |
| FundingModal.SponsorForm.constructor | components/FundingModal.tsx:12-15 | The form starts at amount 100 with an empty name, not processing and not successful. |
| FundingModal.SponsorForm.SetName | components/FundingModal.tsx:60 | Typing sets the name and changes nothing else. |
| FundingModal.SponsorForm.ChoosePreset | components/FundingModal.tsx:73 | A preset sets the amount to its value and changes nothing else. The amount stays a preset. |
| FundingModal.SponsorForm.Submit | components/FundingModal.tsx:19-22 | A submit starts exactly when the dialog is open, no cycle is running and the name is non-empty; this follows from `required` at :57 and `disabled` at :99. A started submit sets processing and arms the payment timer with the current name and amount. Otherwise nothing changes. |
| FundingModal.SponsorForm.PaymentTimerFires | components/FundingModal.tsx:22-24 | The first timer clears processing, sets success and arms the thank-you timer with the captured values. It does nothing when no payment is pending. |
| FundingModal.SponsorForm.ThankYouTimerFires | components/FundingModal.tsx:25-29 | The second timer reports `onSuccess` once, with the captured name and amount, then clears success and asks to close. The name and amount fields keep their values. |
| FundingModal.PayoutsTrailSubmits | components/FundingModal.tsx:19-31 | `onSuccess` runs once per accepted submit. Exactly one payout is outstanding while a cycle runs, and none otherwise. |
| FundingModal.SponsorCycle | components/FundingModal.tsx:19-31 | On a fresh dialog, type, pick, submit and two timers give exactly one sponsorship with the typed name and the preset amount, followed by a close. An empty name gives nothing. |
| App.AppendLogWindow | App.tsx:68 | `AppendLog` is `addLog`'s update. It gives the eleven newest messages of the old log plus the new one. The new message comes last, after the old log's ten newest in their order. |
| App.AppendAllWindow | App.tsx:68 | Any run of `addLog` calls leaves the eleven newest messages of the whole history, in order. |
| App.TotalPrepend | App.tsx:475 | `Total` is the `reduce` sum of the amounts. Putting a backer in front adds exactly its amount to the `reduce` total. |
| App.InitialTotal | App.tsx:50-54 | The three initial backers total 900. |
| App.LowerChar | App.tsx:134 | Lower-casing maps A-Z to a-z and leaves every other character alone. |
| App.Lower | App.tsx:134 | `toLowerCase` keeps the length and lower-cases each character in place. |
| App.LowerIdempotent | App.tsx:134 | Lower-casing twice is the same as lower-casing once. |
| App.Contains | App.tsx:135 | `includes` holds exactly when the word occurs at some index. |
| App.MentionsAny | App.tsx:135-144 | An `\|\|` chain of `includes` holds exactly when some keyword of the list occurs. |
| App.TechIconIsFirstMatch | App.tsx:133-146 | `TechIconOf`, the if-chain of `getTechIcon`, is the first match over the ten categories in order. |
| App.CategoriesAreDistinct | App.tsx:135-144 | The ten categories have ten different icons, none of them the default. |
| App.TechIconCategory | App.tsx:133-146 | Category k's icon is drawn exactly when the lower-cased name mentions one of its keywords and none of any earlier category's. |
| App.TechIconDefault | App.tsx:145 | The terminal icon is drawn exactly when no keyword of any category occurs. |
| App.TechIconIgnoresCase | App.tsx:134 | A name and its lower-cased form get the same icon. |
| App.ReactNativeIsFrontend | App.tsx:135 | "React Native" gets the frontend icon, not the mobile one. |
| App.MongoIsDatabase | App.tsx:137 | "Mongo" gets the database icon even though it mentions the language keyword "go". |
| App.ShortNamesAreTerminal | App.tsx:135-145 | A name of at most one character gets the terminal icon. |
| App.DashifyNoSpace | App.tsx:302 | No whitespace survives `replace(/\s+/g, '-')`. |
| App.DashifyNoUpper | App.tsx:302 | The replacement introduces no upper-case letter. |
| App.DashifyRun | App.tsx:302 | `Dashify` is `replace(/\s+/g, '-')`. Each maximal whitespace run becomes exactly one dash, and the text on either side is treated independently. |
| App.DashifyKeepsSpaceless | App.tsx:302 | Text without whitespace is left as it is. |
| App.Slug | App.tsx:302 | The slug holds no whitespace and no upper-case letter. |
| App.SlugIdempotent | App.tsx:302 | Taking the slug of a slug changes nothing. |
| App.SlugOfPlainName | App.tsx:302 | A lower-case name without whitespace is its own slug. |
| App.FileList | App.tsx:95-101 | There is one record per uploaded file. |
| App.FileListAt | App.tsx:95-101 | Record i is `ToFileData` of upload i: its name, whole text and MIME type. |
| App.UploadLogShape | App.tsx:92-116 | After an upload the console shows at most eleven lines, the last saying whether the conversion succeeded. With few files it shows everything from the start line on. |
| App.Converted | App.tsx:107-108 | The page gets a result exactly when there is a key, the call is answered with non-empty text and that text parses; the result is the parse of the text. Without a key it gets none. |
| App.Session.constructor | App.tsx:44-54 | The state starts with no files, no result, the overview tab, the dialog closed, an empty log and the three initial backers totalling 900. |
| App.Session.AddLog | App.tsx:68 | The log becomes the `addLog` window of the old log and the message, and no other field changes. |
| App.Session.AddFunder | App.tsx:121-123 | The new backer comes first, with the old list unchanged after it, and the total grows by its amount. Nothing else changes. |
| App.Session.ResetApp | App.tsx:70-75 | Reset clears files, result and log, ends converting and selects the overview tab. It leaves the backers and the dialog flag alone. |
| App.Session.SelectTab | App.tsx:264-267 | A tab button selects its tab and changes nothing else. |
| App.Session.SetSponsorModalOpen | App.tsx:272 | The dialog flag is set and nothing else changes. |
| App.Session.ReadUploads | App.tsx:96-101 | The loop logs one reading line per file in order and builds the file list in upload order. |
| App.Session.BeginUpload | App.tsx:91-105 | Converting starts, the files are stored, and the log restarts with the start line, the reading lines and the two hand-over lines. |
| App.Session.HandleFileUpload | App.tsx:87-119 | An empty or absent selection changes nothing. Otherwise the files are stored in order and the log holds exactly the upload's messages. A result is queued for the reveal. A failure logs the error line and ends converting with the result unchanged. |
| App.Session.RevealTimerFires | App.tsx:110-114 | The reveal timer shows the oldest queued result and ends converting. |
| App.Session.SponsorThankYouFires | App.tsx:515-519 | The dialog's second timer adds the captured name and amount as the newest backer and closes the dialog. The form goes idle with both flags cleared and one more payout, and keeps its name and amount. With no thank-you pending nothing changes. |
| App.UploadThenReveal | App.tsx:87-119 | On a fresh page, an upload and its reveal show exactly what the service produced. Converting is over, and the last log line says how the call went. |

## Left out

- The hosted-model call and `JSON.parse` are opaque parameters (`generate`, `parse`, `parses`). The schema config is kept only as its `required` list, and the client constructor is not modelled.
- The code calls a single model id, `gemini-1.5-pro`, once; there is no retry or fallback loop.
- GeminiService.Preview: lengths are counted in Unicode scalar values, not UTF-16 code units as `substring` counts them, so text outside the Basic Multilingual Plane is cut at a different place, and a cut through a surrogate pair cannot be expressed.
- App.Converted: `parse` returning None stands for `JSON.parse` throwing. A text that parses to something other than an object, such as `null`, is not told apart from a failure: the page would log success and then show no result.
- Process plumbing is left out or made a parameter: `dotenv`, `process.argv`, `path.resolve`, `console` and `process.exit`. The environment is the `Env` value, and the exit code is `ExitStatus`. The console lines (the usage hint, the file count, the failure line) and the `JSON.stringify` formatting of the printed result are not modelled.
- The filesystem is a tree value. `fs.readdir` and `fs.readFile` are the `listable` and `readable` flags, and UTF-8 decoding and symbolic links are not modelled. `path.relative`/`path.join` become the opaque `nameOf`, and `Ext` models `path.extname` on base names only.
- The timers keep their order but not their durations (2500, 1500 and 1000 ms). `new Date()` is the `today` parameter.
- App.Session.HandleFileUpload: the awaits are treated as atomic, so no other handler can run between reading the files and the service call. A rejected `file.text()` is not modelled. `resetApp` during the reveal delay is modelled; the reveal still fires afterwards.
- App.Lower: `toLowerCase` is modelled on ASCII letters only; other characters are kept as they are. `\s` is modelled with JavaScript's whitespace set.
- `formatCurrency` and `getAvatarUrl` are left out because they depend on `Intl` formatting and `encodeURIComponent`.
- JSX rendering, gsap animations, `window.open` and components/FunderList.tsx (pure rendering) are left out.
- The valuation figures are text the model writes; the code computes nothing from them.
- FundingModal.SponsorName: the `'Anonymous'` fallback is modelled, but `required` on the name field means no submit can reach it. `ThankYouTimerFires` therefore always reports the typed name.
- FundingModal.SponsorForm.Submit: the browser's form validation is folded into the submit's condition. Closing the dialog does not cancel a running cycle, and its timers still fire.
