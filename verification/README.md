# Image renamer: usage meter, upload flow and response normalisation

A Dafny model of the three pieces of original, sequential logic in the
image-renamer web application:

- **The anonymous daily usage meter** (`useUsageLimit`, module `UsageLimit`).
  A visitor who is not signed in gets three analyses per calendar day. The
  count is kept in local storage as `{count, lastReset}` under the key
  `ai_renamer_usage`. A signed-in user is unlimited (`Infinity`, here the
  `Unlimited` variant). Storage is an explicit `Option<Stored>` value, where a
  present entry is a `Valid` record or `Corrupt` text. The calendar day is a
  `today` parameter. The hook's React state is a `Meter` record that each
  step returns.
- **The upload flow** (`app/page.tsx`, modules `FileNames` and
  `UploadFlow`). It covers the image-type gate on file selection, the
  analysis request and its outcome, the reset, and the derived download
  name. That name carries the original file's extension over to the model's
  suggested name. `app/components/UploadImage/index.tsx` repeats the four
  handlers word for word (lines 20-101), so `UploadFlow` models both files.
  Module `UploadImage` models the buttons rendered in each state: Analyze,
  Download and New Image, which the page renders too, and Cancel, which only
  the component has. Cancel and New Image both run `resetApp`.
- **The analysis route** (`app/api/analyze-image/route.ts`, module
  `AnalyzeRoute`). It checks the request for an image, strips Markdown code
  fences from the model's reply, and maps the parse outcome to
  `{description, suggestedName, confidence}`. Confidence is 0.9 for a parsed
  reply and 0.8 for the degraded fallback.

Module `JsStrings` writes out the JavaScript string operations these rely on:
`startsWith`, `endsWith`, `split` on a one-character separator, the `\s`
whitespace class and `trim`. The source never calls `join`. It is defined
only as the inverse that pins down what `split` returns.

The code is modelled as written. In particular, the hook has a single
`useAnalysis` operation. It checks the remaining count held in memory, then
counts one use at once. There is no refund and no consume-after-success
ordering. No page wires the meter to the analysis request. Two behaviours
follow directly from the code:

- An unreadable stored entry is removed by the mount effect. The same entry
  makes `useAnalysis` throw, because its `JSON.parse` has no guard.
- The JSON value `null` parses successfully. Reading `.description` on it
  then throws inside the route's inner `try`, so `null` takes the degraded
  branch just as non-JSON text does.

## Model

| member | source | states |
|---|---|---|
| `UsageLimit.Mount` | helpers/hooks/useUsageLimit.ts:13-14 | Before the effect runs, the hook is loading, storage is as found, and the remaining count is the full allowance of a day with nothing stored |
| `UsageLimit.MaxUses` | helpers/hooks/useUsageLimit.ts:88 | `maxUses` is the remaining count after no use, the full allowance an anonymous visitor gets on a day with nothing stored |
| `UsageLimit.RemainingAfter` | helpers/hooks/useUsageLimit.ts:40 | The remaining count is never negative, is positive exactly when the count is below 3, and is at most 3 unless the count is negative |
| `UsageLimit.Init` | helpers/hooks/useUsageLimit.ts:16-53 | The mount effect computes the policy's remaining count and finishes loading. Signed in: storage is untouched. Anonymous: storage is left holding nothing or a record of today, and the count for today is unchanged. Nothing stored stays nothing, an unreadable entry is removed, and a current record is not rewritten |
| `UsageLimit.UseAnalysis` | helpers/hooks/useUsageLimit.ts:55-84 | Signed in: allowed and nothing changes. Anonymous with no positive remaining count in memory: refused and nothing changes. Anonymous with a positive count and a readable or absent entry: allowed. Throws exactly when it would have to parse an unreadable entry. Otherwise today's stored count rises by one, is written with today's date, and the remaining count becomes the policy's for the new record |
| `UsageLimit.AuthenticatedUnlimited` | helpers/hooks/useUsageLimit.ts:17-22 | For a signed-in user, the effect sets the remaining count to unlimited without touching storage. `canUse` and `isUnlimited` hold, and `useAnalysis` answers yes with no change |
| `UsageLimit.InitConsistent` | helpers/hooks/useUsageLimit.ts:24-50 | After the anonymous effect, the remaining count in memory agrees with the stored record of today |
| `UsageLimit.CanUse` | helpers/hooks/useUsageLimit.ts:89 | `canUse` is false exactly when `useAnalysis`, on any day, would refuse and leave everything as it was |
| `UsageLimit.IsUnlimited` | helpers/hooks/useUsageLimit.ts:92 | `isUnlimited` holds exactly when the mount effect's policy gives an unlimited count for every storage content and every day |
| `UsageLimit.CanUseIffAllowed` | helpers/hooks/useUsageLimit.ts:89 | On a state consistent with storage, `canUse` holds exactly when an anonymous `useAnalysis` would be allowed, and that call does not throw |
| `UsageLimit.UseConsumesOne` | helpers/hooks/useUsageLimit.ts:65-83 | An allowed anonymous use adds exactly one to today's stored count, keeps memory and storage consistent, and lowers the remaining count by one |
| `UsageLimit.DailyAllowance` | helpers/hooks/useUsageLimit.ts:61-83 | From a consistent state, `n` calls on one day, each seeing the count the previous one set, never throw. They are allowed `min(n, what is left)` times, and the stored count rises by exactly that much |
| `UsageLimit.ThreeFreeUses` | helpers/hooks/useUsageLimit.ts:48-83 | From nothing stored, the effect gives 3. Three calls, with a render between each, leave 2, 1 and 0 and store a count of 3 for today. The fourth call is refused with no change |
| `UsageLimit.StaleRecordIsAbsent` | helpers/hooks/useUsageLimit.ts:29-38 | A record of another day is rewritten to `{0, today}`. It then gives the same remaining count, 3, and the same next use as an empty storage |
| `UsageLimit.SameRenderOverrun` | helpers/hooks/useUsageLimit.ts:61-81 | Two calls through one render both read the remaining count captured at that render, 1, and re-read storage. Both are allowed, and today's stored count reaches 4, one past the limit |
| `UsageLimit.DayRolloverKeepsMemory` | helpers/hooks/useUsageLimit.ts:61-63 | The refusal reads memory, not storage. If yesterday's in-memory 0 survives into a new day, the call is refused although the policy for today gives 3 |
| `JsStrings.Split` | app/page.tsx:80 | `split(".")` gives at least one piece, no piece contains the separator, and the pieces joined with the separator give back the input |
| `JsStrings.SplitJoin` | app/page.tsx:83 | Splitting the join of separator-free pieces gives back those pieces, so the split is the unique such decomposition |
| `JsStrings.SplitEnds` | app/page.tsx:80-83 | The first piece is the text before the first separator and the last piece the text after the last one. Without a separator the split is the whole string |
| `JsStrings.TrimStartDropsWhitespace` | app/api/analyze-image/route.ts:44 | The start-trim removes only whitespace characters |
| `JsStrings.TrimEndDropsWhitespace` | app/api/analyze-image/route.ts:44 | The end-trim removes only whitespace characters |
| `JsStrings.TrimShape` | app/api/analyze-image/route.ts:44 | `trim()` keeps a contiguous middle part of its input, starting right after the leading whitespace run |
| `JsStrings.Trim` | app/api/analyze-image/route.ts:44 | `trim()` never lengthens its input and leaves no whitespace at either end |
| `JsStrings.TrimIdempotent` | app/api/analyze-image/route.ts:44 | Trimming a trimmed string changes nothing |
| `FileNames.Extension` | app/page.tsx:80 | The extension contains no dot and ends the file name. It follows the name's last dot when there is one, and is the whole name otherwise |
| `FileNames.Stem` | app/page.tsx:83 | The stem contains no dot and starts the name. It is followed by the name's first dot when there is one, and is the whole name otherwise |
| `FileNames.DownloadName` | app/page.tsx:81-83 | The download name ends in `.` plus the original file's extension, and a suggestion that already ends so is kept verbatim |
| `FileNames.DownloadNameShape` | app/page.tsx:80-83 | The download name always ends in `.` plus the original extension. A suggestion already ending so is kept verbatim. Otherwise what precedes `.ext` is the suggestion's longest dot-free prefix |
| `FileNames.DownloadNameIdempotent` | app/page.tsx:81-83 | Feeding the derived name back as the suggestion returns it unchanged |
| `UploadFlow.HandleFileSelect` | app/page.tsx:20-30 | A file whose MIME type starts with `image/` becomes the selection with its preview, clearing the result and the error. Anything else, including no file, sets only the error. The error is empty exactly when the file was accepted |
| `UploadFlow.Received` | app/page.tsx:53-59 | The page receives an analysis exactly when the route answered with one; a transport failure or an error status gives none |
| `UploadFlow.BeginAnalysis` | app/page.tsx:32-36 | Without a file the analysis does not start. Otherwise loading begins and the error is cleared, with file, preview and result unchanged |
| `UploadFlow.AnalyzeImage` | app/page.tsx:32-66 | With no file this is a no-op. Otherwise loading always ends and file and preview are kept. A received analysis becomes the result with no error. A failure sets "Failed to analyze image. Please try again." and keeps the previous result |
| `UploadFlow.DownloadRenamedFile` | app/page.tsx:77-91 | A download happens exactly when there is both a file and a result. It saves the preview under a name ending in the original extension, keeping a suggestion that already ends so |
| `UploadFlow.ResetApp` | app/page.tsx:93-101 | File, preview, result and error are cleared and the loading flag is untouched. The old preview URL is revoked exactly when it was non-empty |
| `UploadFlow.InitialCoherent` | app/page.tsx:12-16 | The first render is coherent, with no file, no result and nothing in flight |
| `UploadFlow.HandlersPreserveCoherent` | app/page.tsx:20-101 | Every handler keeps the page coherent: a preview exactly when a file is chosen, that file an image, a result only with a file, nothing in flight, and the error one of the page's messages |
| `UploadFlow.DownloadIffResult` | app/page.tsx:78 | On a coherent page, download is possible exactly when a result is shown |
| `UploadFlow.FailureShowsNoResult` | app/page.tsx:53-64 | A failed request on a page without a result leaves it without one and shows the failure message |
| `UploadFlow.AnalyzeThroughRoute` | app/page.tsx:43-59 | Through the route: with an image and a model reply, the page shows an analysis whose name and description are non-empty. Otherwise it shows the failure message |
| `UploadImage.Buttons` | app/components/UploadImage/index.tsx:106-201 | Analyze and Cancel are shown together, as are Download and New Image. Download is shown exactly when there is a file and a result. Analyze is shown exactly when there is a file, no result and no analysis in flight. The two pairs never show at once |
| `UploadImage.Step` | app/components/UploadImage/index.tsx:106-201 | Events on elements not rendered do nothing. Choosing a file on the shown input runs `handleFileSelect`. Cancel and New Image give exactly the state `resetApp` leaves: file, preview, result and error cleared, the loading flag kept. They revoke the preview only when it is non-empty. Download saves exactly the link `downloadRenamedFile` builds, whose name ends in the original extension. Analyze runs `analyzeImage` and ends with loading off |
| `UploadImage.RunCoherent` | app/components/UploadImage/index.tsx:20-101 | Starting from a coherent state, any sequence of user events leaves the component coherent. So a result never shows without its file, and no analysis is left in flight |
| `UploadImage.ResetButtonsClear` | app/components/UploadImage/index.tsx:159 | Cancel, like New Image, returns the component to the file input with no buttons, revoking the preview URL |
| `AnalyzeRoute.OrElse` | app/api/analyze-image/route.ts:48-54 | `x \|\| fallback` gives the value when it is a non-empty string and the fallback otherwise, so with a non-empty fallback the result is never empty |
| `AnalyzeRoute.StripFences` | app/api/analyze-image/route.ts:44 | The fence removal never lengthens the text |
| `AnalyzeRoute.StripFencesKeeps` | app/api/analyze-image/route.ts:44 | The fence removal deletes no character other than backticks, whitespace and the letters of `json`: every other character occurs in the result as often as in the input |
| `AnalyzeRoute.StripFencesNoBackticks` | app/api/analyze-image/route.ts:44 | Text without backticks passes through the fence removal unchanged |
| `AnalyzeRoute.FencedReply` | app/api/analyze-image/route.ts:41-45 | For a reply of the form ```` ```json ```` + body + ```` ``` ```` with a backtick-free body, the text handed to the parser is exactly the trimmed body |
| `AnalyzeRoute.JsonText` | app/api/analyze-image/route.ts:42-44 | The text handed to `JSON.parse` is `{}` for a null or empty reply, the trimmed reply when it has no backticks, and in every case already trimmed |
| `AnalyzeRoute.Normalize` | app/api/analyze-image/route.ts:40-58 | Description and name are never empty, and confidence is 0.9 or 0.8, with 0.9 exactly when the parse gives a value. A parsed value's truthy fields are used, with defaults otherwise. Otherwise the raw reply, or the default if empty, is the description, and the default is the name |
| `AnalyzeRoute.Post` | app/api/analyze-image/route.ts:8-62 | An unreadable body gives 500 and no model call. A missing or empty image gives 400 "No image provided" and no model call, and 400 arises in no other case. With an image, gpt-4o-mini is asked with 150 tokens. A failed call gives 500 "Failed to analyze image", and any reply gives 200 with the normalised analysis |
| `AnalyzeRoute.EmptyReplyDefaults` | app/api/analyze-image/route.ts:42-51 | A null or empty reply is parsed as `{}`, giving the default description and name at confidence 0.9 |
| `AnalyzeRoute.DegradedRatedLower` | app/api/analyze-image/route.ts:50-56 | A degraded answer always has lower confidence than a parsed one |

## Left out

- Browser and framework I/O is not modelled: `localStorage` calls, `new Date().toDateString()`, React re-rendering and `useEffect` scheduling, `FileReader`, `fetch`, object URLs, and the hidden-anchor click. These become explicit storage, day, transport and effect values.
- The OpenAI client call and `JSON.parse` are foreign code. The model's reply is a `ModelReply` input, and the parser is a function parameter.
- `EmptyReplyDefaults` assumes that parsing `{}` gives a value with no fields, as `JSON.parse` does. The parser's internals are not modelled.
- `UsageLimit.UseAnalysis`: each call is given the remaining count the previous call set, as if React re-rendered between calls. `UseRepeatedly`, `DailyAllowance` and `ThreeFreeUses` rest on that. In the source, calls through one render's `useAnalysis` all read the count captured at that render, because `setRemainingUses` takes effect only at the next render. Only storage is re-read. Such calls can go past the daily limit, as `SameRenderOverrun` shows. Render scheduling is not modelled.
- `UsageLimit.UseAnalysis`: the stored count is a mathematical integer. A non-numeric or fractional `count` read back from JSON (giving `NaN` or fractions in JavaScript) is not modelled.
- `UsageLimit.Init`: an empty string stored under the key is falsy in JavaScript and so behaves like no entry. The model does not distinguish it from `None`.
- `AnalyzeRoute.Normalize`: field values of types other than string (numbers, objects, booleans) are not modelled. A missing or `null` field is `None`.
- `AnalyzeRoute.StripFences`: no contract claims that no fence remains afterwards. Removing one match can join backticks into a new one.
- `AnalyzeRoute.Post`: a `base64Image` of a type other than string is not modelled. The failure of `console.error` or of `NextResponse.json` is not modelled either.
- Strings are Dafny `string`, a sequence of Unicode scalar values, whereas JavaScript strings are sequences of UTF-16 code units. Text holding a lone surrogate cannot be represented, and lengths differ for characters outside the Basic Multilingual Plane.
- Concurrency is not modelled: overlapping analyze clicks, a reset while a request is in flight, and races between browser tabs on the storage entry. Each handler runs to completion on its own.
- A refund operation and consume-after-success ordering are not modelled, because the code has neither.
- `app/components/AuthModal/index.tsx`, `lib/supabase.ts`, `app/components/UsageLimit/index.tsx` and `app/layout.tsx` are not part of this model. They hold auth-provider calls, client setup, presentation and static markup.
