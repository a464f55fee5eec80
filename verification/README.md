# Rizzonator core in Dafny

This project models the logic behind the Rizzonator dating-assistant web app. It covers six parts:

- the reply handler `POST /api/rizz`, which turns a conversation into a prompt for a text-completion service and parses the raw answer into a `replies` list;
- the screenshot screen, which resizes the image, assigns a screen side to each recognised line, filters out chat chrome and posts the last six lines;
- the assistant chat screen's `sendMessage` and its copy-mode button;
- the onboarding wizard: step counter, answers saved per key, the eight-line style vote and the dominant style saved as the preferred one;
- the profile screen's choice of display name and avatar from the two stored profile records;
- the six-digit user-id generator and `reserveUID`.

Each part is a module of pure functions over immutable datatypes. Only the id generator is also written as a method with a loop. The JavaScript string and array operations the code relies on are in module `Text`: `trim`, `split` on one character, `join`, ASCII case mapping, `startsWith`, substring search, `filter` and `slice`. `Wrappers` holds `Option`.

Effects are parameters or results:

| effect | how it appears in the model |
|---|---|
| completion-service answer | `RizzRoute.Completion` |
| recognised screenshot lines | `Screenshot.OcrLine` |
| random draws | `draws` |
| clock | `now` |
| stored records | `ProfileView.Stored` |
| reserved-id set | the `uids` parameter and result |

## Model

| member | source | states |
|---|---|---|
| RizzRoute.Handle | src/app/api/rizz/route.js:1-138 | The response always holds at least one reply. The completion service is asked exactly when `messages` is a non-empty array with no faulty element: no `null`, and no object whose `text` or `side` is a truthy non-string. The transcript sent is the rendered messages. The reply template is used exactly when copy mode is detected. |
| RizzRoute.EmptyRequestGreets | src/app/api/rizz/route.js:6-10 | A missing, non-array or empty `messages` gets the greeting alone and no completion call. |
| RizzRoute.PlainTexts | src/app/api/rizz/route.js:13-15 | The intent texts are never empty and are no more than there are messages. |
| RizzRoute.PlainTextsIsFilter | src/app/api/rizz/route.js:13-15 | The intent texts are exactly the non-empty per-message texts (a string as is, an object's `text` trimmed), all of them, in message order. |
| RizzRoute.PlainTextsAppend | src/app/api/rizz/route.js:13-15 | Intent texts of a concatenation are the texts of each part, in turn. |
| RizzRoute.AllPlainTexts | src/app/api/rizz/route.js:14 | One text per message: a string as is, an object's `text` trimmed, with missing text counting as empty. |
| RizzRoute.UserText | src/app/api/rizz/route.js:16 | The intent text holds no upper-case ASCII letter. |
| RizzRoute.UserTextAppend | src/app/api/rizz/route.js:16 | The intent text of a longer conversation is the intent texts of its halves with one space between. |
| RizzRoute.SideLabel | src/app/api/rizz/route.js:20 | A missing or empty side is labelled UNKNOWN. Any other side is labelled with its upper-cased self. A label is never empty and has no lower-case ASCII letter. |
| RizzRoute.RenderLine | src/app/api/rizz/route.js:20 | A string renders as itself. An object renders as its label, `": "`, then its text, with the word `undefined` when the text is missing. |
| RizzRoute.RenderLines | src/app/api/rizz/route.js:19-20 | One rendered line per message, in order. |
| RizzRoute.ModelInput | src/app/api/rizz/route.js:19-21 | When no rendered line has a line break of its own, splitting the transcript on line breaks gives back exactly one line per message, in order. |
| RizzRoute.DetectMode | src/app/api/rizz/route.js:24-28 | Copy mode holds if and only if the flag is the boolean `true` or the intent text contains one of the ten trigger phrases. |
| RizzRoute.TriggerSample | src/app/api/rizz/route.js:24-28 | "what should i text her" selects copy mode without the flag. |
| RizzRoute.TemplateFor | src/app/api/rizz/route.js:31-75 | The reply template is chosen if and only if the mode is copy mode. |
| RizzRoute.CopyFlagForcesReplyTemplate | src/app/api/rizz/route.js:24-31 | `copyMode: true` with any non-empty messages free of faulty elements uses the reply template and the rendered transcript. |
| RizzRoute.ReachesCompletion | src/app/api/rizz/route.js:13-103 | Every non-empty request free of faulty elements reaches the completion service. With the flag set, it uses the reply template. |
| RizzRoute.CleanLines | src/app/api/rizz/route.js:111-112 | Cleaned lines are non-empty, trimmed, and no more than the input lines. If no input line holds a line break, no cleaned line does. |
| RizzRoute.ResponseLines | src/app/api/rizz/route.js:109-112 | Every parsed line is non-empty, trimmed at both ends and free of line breaks. |
| RizzRoute.CleanLinesIsFilter | src/app/api/rizz/route.js:111-112 | Cleaning is exactly: trim every piece, then keep the non-empty ones, in order. |
| RizzRoute.ResponseLinesIsFilter | src/app/api/rizz/route.js:109-112 | The parsed lines are exactly the trimmed pieces between line breaks that are not empty, in order. |
| RizzRoute.HasHeader | src/app/api/rizz/route.js:116-117 | The first line is a direction marker exactly when it starts with `INCOMING` or `OUTGOING` in any mix of letter case. An empty list has no marker. |
| RizzRoute.CleanLinesOfClean | src/app/api/rizz/route.js:111-112 | Already clean lines pass through cleaning unchanged. |
| RizzRoute.ResponseLinesOfJoin | src/app/api/rizz/route.js:109-112 | Round trip: clean lines joined with line breaks are parsed back to exactly those lines. |
| RizzRoute.ParseReplies | src/app/api/rizz/route.js:114-125 | Copy mode gives at most three consecutive cleaned lines, starting after the direction marker when there is one and at the first line otherwise. Advice mode gives the whole trimmed text as one entry. |
| RizzRoute.MarkedRepliesRoundTrip | src/app/api/rizz/route.js:116-118 | A direction marker, in any letter case, followed by three clean lines is parsed to exactly those three lines. |
| RizzRoute.MarkedLines | src/app/api/rizz/route.js:109-118 | Clean lines joined by line breaks, the first a marker, are parsed to the three lines after it. |
| RizzRoute.UnmarkedLines | src/app/api/rizz/route.js:109-122 | Clean lines joined by line breaks, the first not a marker, are parsed to the first three (or fewer) of them. |
| RizzRoute.UnmarkedRepliesRoundTrip | src/app/api/rizz/route.js:119-122 | Without a marker, the first three (or fewer) clean lines are returned. |
| RizzRoute.OutgoingSample | src/app/api/rizz/route.js:114-118 | `OUTGOING\nHey!\nWhat's up?\nYo!` yields `["Hey!", "What's up?", "Yo!"]`. |
| RizzRoute.FailuresApologise | src/app/api/rizz/route.js:133-137 | A faulty message, or a failed completion call or decode, is answered with the apology alone. A faulty message is never sent to the completion service. |
| RizzRoute.OrRephrase | src/app/api/rizz/route.js:127-131 | The reply list is never empty. A non-empty list is kept as is. |
| RizzRoute.AdviceRepliesOnce | src/app/api/rizz/route.js:123-131 | Advice mode answers with exactly one entry, the trimmed completion, even when that is empty. |
| RizzRoute.CopyRepliesBounded | src/app/api/rizz/route.js:114-131 | Copy mode answers with one to three lines of the completion, in order. The rephrase placeholder appears exactly when parsing left nothing. |
| Screenshot.Round | src/app/upload.js:56 | `Math.round` gives the integer within one half of its argument, halves rounding up. |
| Screenshot.RoundQuotientAtMost | src/app/upload.js:53-60 | The rounded scaled side never exceeds the maximum dimension. |
| Screenshot.ResizeDims | src/app/upload.js:49-61 | Images within the limit are unchanged. Otherwise the longer side (width only on a strict win) becomes the limit and the other side is the proportionally scaled value, rounded. Both sides always end within the limit. |
| Screenshot.SideOf | src/app/upload.js:112-114 | Right if and only if the box centre is strictly past half the image width. Left if and only if it is at or before half. Unknown if and only if a bound is missing or the width is 0. |
| Screenshot.ClassifyOcrLine | src/app/upload.js:111-115 | A recognised line keeps its trimmed text (empty when missing) and gets its side from the box. |
| Screenshot.PlainTextLines | src/app/upload.js:117-120 | The fallback lines are exactly the trimmed pieces of text that are not empty, in order, each with side unknown. |
| Screenshot.ExtractLines | src/app/upload.js:110-120 | Recognised lines map one to one, in order. Without any, the plain-text fallback is used. Every line is trimmed. |
| Screenshot.PlainTextFallback | src/app/upload.js:117-120 | Without recognised lines, the lines are the plain text's non-blank pieces between line breaks, trimmed, in order, all with side unknown. |
| Screenshot.Recent | src/app/upload.js:122-124 | The result is the last up-to-six lines that have text and no denylisted word, in original order. Every one of them passes the filter. |
| Screenshot.RecentIdempotent | src/app/upload.js:122-124 | Filtering an already filtered list changes nothing. |
| Screenshot.DenylistedDropped | src/app/upload.js:123 | A line containing any denylisted word, in any letter case, is dropped. |
| Screenshot.SeenDropped | src/app/upload.js:123 | The read receipt `Seen 2:30pm` is dropped. |
| Screenshot.MessageKept | src/app/upload.js:123 | The message `I miss you` survives. |
| Screenshot.TruncationKeepsLastSix | src/app/upload.js:124 | Ten surviving lines become the last six. |
| Screenshot.ToMessages | src/app/upload.js:135 | One `{ text, side }` object per surviving line, in order, none faulty. |
| Screenshot.RecognisedWidth | src/app/upload.js:53-60 | Recognition sees an image at most 1024 wide. A screenshot within the limit keeps its width. |
| Screenshot.OutcomeOf | src/app/upload.js:126-135 | No surviving line gives exactly the "no readable text" reply and no request. Otherwise the surviving lines are posted with `copyMode: true`. |
| Screenshot.Analyze | src/app/upload.js:97-135 | The lines surviving the filter, with sides judged against the width of the image recognition ran on, decide the outcome. None gives the "no readable text" reply; otherwise they are posted with `copyMode: true`. |
| Screenshot.AnalyzeAsWritten | src/app/upload.js:97-135 | The same, with sides judged against the preview's width, which is the screenshot's own. |
| Screenshot.SmallScreenshotsAgree | src/app/upload.js:53-60 | For a screenshot within 1024 on both sides, the two versions give the same outcome. |
| Screenshot.TallScreenshotMisreadsSides | src/app/upload.js:97-114 | A 1170 x 2532 screenshot is recognised at 473 x 1024. A box from 300 to 470 is Left as written and Right when judged in the recognised image. |
| Screenshot.PostedLinesUseReplyTemplate | src/app/upload.js:132-135 | Posted lines reach the completion service with the reply template. Each transcript line is the upper-cased side, `": "`, then the text. |
| Screenshot.ScreenshotRequestUsesReplyTemplate | src/app/upload.js:122-135 | Every screenshot request holds one to six messages and uses the reply template. |
| Chat.History | src/app/bot.js:119-123 | Nothing is posted for whitespace-only text. Otherwise the posted history is the text of every earlier entry, in order, then the new text. |
| Chat.SendRequest | src/app/bot.js:123-129 | The request carries the history as plain strings and the current copy-mode flag. |
| Chat.AnswerEntries | src/app/bot.js:133-142 | Copy mode with at least one reply gives one copy-ready entry per reply, in order. Otherwise there is one assistant entry with the replies joined by a blank line (empty without replies). |
| Chat.Send | src/app/bot.js:118-143 | Whitespace-only text changes nothing. Otherwise the old log is kept as a prefix, followed by the untrimmed user entry and then the answer entries. When the request fails or the response is not JSON, only the user entry is added. Copy mode is untouched. |
| Chat.LostAnswerLeavesQuestion | src/app/bot.js:118-131 | After a lost answer, the user's entry stands unanswered at the end of the log, and the next message's history still carries it. |
| Chat.Toggle | src/app/bot.js:171 | The button flips copy mode and keeps the log. |
| Chat.ToggleTwice | src/app/bot.js:171 | Pressing the button twice restores the state. |
| Chat.CopyModeAppendsEachReply | src/app/bot.js:133-137 | In copy mode, k replies add exactly k copy-ready entries whose texts are the replies. |
| Chat.AdviceModeAppendsOne | src/app/bot.js:138-142 | Outside copy mode, or with no replies, exactly one assistant entry is added. |
| Chat.SendReachesCompletion | src/app/bot.js:123-129 | A sendable message always reaches the completion service, with the reply template in copy mode. |
| Onboarding.RizzStylesAgree | src/app/onboarding.js:7-19 | The vote order of styles is the style column of the eight-line table. |
| Onboarding.Rank | src/app/onboarding.js:35 | Each style has its place in the score-key order smooth, funny, bold, witty. |
| Onboarding.Bump | src/app/onboarding.js:61-64 | A yes adds one point to its style and leaves the other three alone. |
| Onboarding.Set | src/app/onboarding.js:51 | Saving an answer changes only that field. The other fields and the scores stay. |
| Onboarding.Next | src/app/onboarding.js:42-48 | `next` moves one step on and changes nothing else. |
| Onboarding.SaveAndNext | src/app/onboarding.js:50-53 | The answer is stored under its key, every other field and the scores stay, and the wizard moves one step on. |
| Onboarding.SubmitName | src/app/onboarding.js:139-141 | A blank name leaves the wizard as it is. Any other name is saved untrimmed. |
| Onboarding.ChooseStyle | src/app/onboarding.js:174-179 | The chosen style label is saved lower-cased, which is its score key. |
| Onboarding.Tallied | src/app/onboarding.js:58-67 | A yes adds a point to the current line's style. A no changes nothing. |
| Onboarding.Vote | src/app/onboarding.js:55-78 | Below the last line, the vote is tallied and the index moves on by one. On the last line, the profile including this vote is saved. |
| Onboarding.VoteAsWritten | src/app/onboarding.js:55-78 | As the component runs it, the last line's save uses the profile without the last vote. |
| Onboarding.Dominant | src/app/onboarding.js:82-84 | No style scores more than the dominant one. |
| Onboarding.ReduceIndex | src/app/onboarding.js:82-84 | The reduction settles on a maximal score, and every later key scores strictly less. |
| Onboarding.DominantIsLastMaximal | src/app/onboarding.js:81-84 | The dominant style is the last of the maximal styles in key order, and it is the only style with that property. |
| Onboarding.NoVotesGiveWitty | src/app/onboarding.js:81-84 | With no yes votes, the tie goes to witty. |
| Onboarding.Finish | src/app/onboarding.js:80-93 | The saved profile is the working one with the dominant style as its preferred style, replacing the style-step answer. |
| Onboarding.TallyBounds | src/app/onboarding.js:7-67 | No style scores more than its two lines. The scores add up to the number of yes votes. |
| Onboarding.FullVoteSavesDominant | src/app/onboarding.js:55-93 | Eight votes from the first line save every vote tallied, with the dominant style preferred. |
| Onboarding.LastVoteLost | src/app/onboarding.js:69-81 | Yes on the first and last lines should save witty. As written, the saved profile says smooth. |
| ProfileView.Classify | src/app/profile.js:17-35 | A gender is female if and only if its lower-case form is female, woman or girl. It is male if and only if it is male, man or boy. |
| ProfileView.ClassifyIgnoresCase | src/app/profile.js:17-31 | Letter case does not affect the classification. |
| ProfileView.KnownWords | src/app/profile.js:17-21 | The six known words are classified correctly in mixed case. |
| ProfileView.SavedAvatar | src/app/profile.js:16-25 | From the saved record, a string gender picks the female, male or default picture. Anything else keeps the current picture. |
| ProfileView.TempAvatar | src/app/profile.js:30-37 | From the temporary record, an unrecognised or missing gender keeps the current picture. |
| ProfileView.Load | src/app/profile.js:10-41 | A saved record with a name decides both name and picture. Under a nameless saved record, a readable temporary record gives its name (empty without one) and the picture its gender picks, the default otherwise. An unreadable saved record, or a nameless one with an unreadable temporary record, leaves the initial view. |
| ProfileView.SavedNameIgnoresTemp | src/app/profile.js:13-27 | Once the saved record has a name, the temporary record makes no difference. |
| ProfileView.KnownGenderPicksAvatar | src/app/profile.js:13-37 | A known gender word picks its picture from whichever record decides. An unknown one leaves the default. |
| ProfileView.UnknownGenderKeepsDefault | src/app/profile.js:22-36 | An unrecognised gender string leaves the default picture, from either record. |
| ProfileView.NonStringGenderKeepsDefault | src/app/profile.js:16-30 | A gender that is not a string never changes the picture. |
| ProfileView.TempFieldsIndependent | src/app/profile.js:28-37 | In the temporary record, name and gender apply independently of each other. |
| Uid.Digits | src/lib/uid.js:28 | `String(n)` is a non-empty digit string denoting n. |
| Uid.DigitsNoLeadingZero | src/lib/uid.js:28 | `String(n)` has no leading zero unless n is 0. |
| Uid.PadStart | src/lib/uid.js:28 | Padding gives the longer of the width and the input, the input as its suffix, and fill characters before it. |
| Uid.Pad6 | src/lib/uid.js:28-37 | The padded id is exactly six decimal digits. |
| Uid.Pad6Value | src/lib/uid.js:28 | The padded id denotes the number it was made from. |
| Uid.Pad6Bijective | src/lib/uid.js:27-28 | Padding is a bijection between numbers below a million and six-digit strings. |
| Uid.GenerateFrom | src/lib/uid.js:26-37 | The result is the first candidate not yet reserved, after only reserved ones. If there is none within the attempts, it is the clock's last six digits. |
| Uid.Generate | src/lib/uid.js:23-41 | The id is six digits. It is new unless every attempt's id was reserved. |
| Uid.GenerateUniqueUid | src/lib/uid.js:23-41 | The loop returns the id `Generate` describes. The reserved set gains exactly that id, and it is new unless the fallback was taken. |
| Uid.FirstDrawWhenNoneReserved | src/lib/uid.js:26-33 | With nothing reserved, the first draw is taken. |
| Uid.FallbackCanRepeat | src/lib/uid.js:36-40 | The fallback id is not checked against the reserved set and can repeat a reserved id. |
| Uid.Reserve | src/lib/uid.js:43-49 | After reserving, the id is in the set and no other id's membership changed. |
| Uid.ReserveIdempotent | src/lib/uid.js:43-49 | Reserving twice is reserving once. Reserving a reserved id changes nothing. Otherwise the set grows by one. |
| Uid.GeneratedIsReserved | src/lib/uid.js:30-49 | Reserving an id the generator returned changes nothing. |
| Text.Trim | src/app/api/rizz/route.js:111 | `trim` removes the whitespace at both ends and only that. The result is empty exactly for all-whitespace input. |
| Text.TrimIdempotent | src/app/api/rizz/route.js:111 | Trimming twice is trimming once. |
| Text.Split | src/app/api/rizz/route.js:109-110 | `split` on one character yields parts without it that join back to the input. |
| Text.SplitJoin | src/app/api/rizz/route.js:109-110 | Splitting joined parts gives back the parts. |
| Text.Join | src/app/api/rizz/route.js:16-21 | `join` of no parts is empty and of one part is that part. |
| Text.JoinEnds | src/app/api/rizz/route.js:16-21 | A join starts with its first part, ends with its last, and with two or more parts the separator follows the first. |
| Text.JoinAppend | src/app/api/rizz/route.js:16-21 | `join` distributes over concatenation, with one separator between the halves. |
| Text.Lower | src/app/api/rizz/route.js:16 | `toLowerCase` keeps the length, changes only letter case, and leaves no upper-case ASCII letter. |
| Text.Upper | src/app/api/rizz/route.js:20 | `toUpperCase` keeps the length, changes only letter case, and leaves no lower-case ASCII letter. |
| Text.UpperStartsWith | src/app/api/rizz/route.js:116-117 | For an all-upper-case prefix, the upper-cased text starts with it exactly when the text starts with it in any letter case. |
| Text.ContainsAny | src/app/api/rizz/route.js:26 | An alternation matches exactly when some alternative occurs somewhere in the text. |
| Text.LowerIdempotent | src/app/api/rizz/route.js:16 | Lower-casing twice is lower-casing once. |
| Text.Filter | src/app/api/rizz/route.js:112 | `filter` keeps exactly the elements that pass. |
| Text.FilterAppend | src/app/upload.js:122-123 | `filter` distributes over concatenation, so relative order is kept. |
| Text.TrimAll | src/app/api/rizz/route.js:111 | `map(r => r.trim())` gives one trimmed piece per piece, in order. |
| Text.Slice | src/app/api/rizz/route.js:118-121 | `slice(lo, hi)` is empty when `hi <= lo`, and otherwise the run of up to `hi - lo` elements starting at `lo`. |
| Text.TakeLast | src/app/upload.js:124 | `slice(-k)` is the last `min(k, length)` elements. |

Behaviours of the handler worth knowing:

- In advice mode, the reply is `[raw.trim()]` even when that is empty. The rephrase placeholder therefore never appears on that path (`RizzRoute.AdviceRepliesOnce`).
- In copy mode, an empty parse is replaced by the placeholder. The response holds one to three replies, never zero (`RizzRoute.CopyRepliesBounded`).
- The direction marker is only used to find where the replies start. It is not part of the response.
- A `null` element of `messages` makes the `.map` at route.js:14 throw, and so does an object whose `text` is truthy but not a string (route.js:14) or whose `side` is (route.js:20). The catch block then answers "Something went wrong" without calling the completion service.
- A non-success completion response is still decoded as JSON. Missing or falsy content is handled like an empty completion (`Completed(None)`). Truthy content that is not a string makes the `.split` at route.js:109 throw, so it is `Failed`, like a rejected call or a body that is not JSON; all three end in the catch block at route.js:133-136.

Case mapping in `Text` covers ASCII letters only. For the comparisons that decide behaviour, this is exact:

- the trigger phrases;
- the denylist (a `/i` regular expression without the `u` flag, which never folds non-ASCII letters onto ASCII ones);
- the six gender words;
- the style labels.

Two JavaScript lower-case mappings reach ASCII: U+212A gives `k` and U+0130 gives `i` followed by U+0307. Neither can create or destroy a match:

- None of these words contains `k`.
- An `i` produced from U+0130 is always followed by U+0307.

## Left out

- Network, storage, image decoding, canvas encoding and OCR: their results are parameters. Fetching `/api/rizz` from the screens is modelled as building the request.
- JSON parsing of request bodies and stored records: a non-array `messages` is `None`, a non-boolean `copyMode` is `None`, an unreadable record is `Unreadable`.
- The wording of the two system prompts: only which template is chosen is modelled.
- The model identifier, temperature and headers sent to the completion service.
- Animations, the 120 ms and 150 ms delays, React rendering and scrolling. Each transition is applied at once, except the stale profile read at the last vote, which is the finding below.
- The `Uid` id generator assumes at least `maxAttempts` draws are supplied (`maxAttempts <= |draws|`), standing in for `Math.random`.
- RizzRoute.SideLabel: upper-cases ASCII letters only. JavaScript also maps letters such as `ß` (to `SS`) and `ı` (to `I`), so non-ASCII side values can render differently.
- RizzRoute.ParseReplies: the direction test upper-cases ASCII only. A first line such as `ıncoming` counts as a marker in JavaScript but not in the model.
- Screenshot.SideOf: the box centre is compared exactly, as a rational number. The source's floating point agrees on the integer pixel bounds that OCR produces.
- Box choice: the choice among `bbox`, `boundingBox`, `box` and the first word's box (upload.js:112) is collapsed into the two optional bounds of the box found.
- Screenshot.ResizeDims: non-integer and negative image sizes are not modelled, since browsers report natural sizes as non-negative integers.
- RizzRoute.Handle: a request body that is not JSON, or is `null`, throws at route.js:3 and is answered with the apology. `Request` only represents bodies that decode to an object.
- RizzRoute.RenderLine: a `text` that is present but falsy and not a string, such as `null`, `0` or `false`, is interpolated by its own spelling (`null`, `0`, `false`). The model only has a string text or a missing one, rendered as `undefined`.
- The navigation shell (`page.js`, `layout.js`), the copy-to-clipboard button and the profile screen's rendering are not part of this model.

## Findings

| source | as written | input that shows it | evidently intended | confidence | as-written member | corrected member |
|---|---|---|---|---|---|---|
| src/app/upload.js:97-114 | Recognition runs on the image resized to at most 1024 on its longer side, but each box centre is compared with half the natural width of the preview, which is the original screenshot. | A 1170 x 2532 screenshot is recognised at 473 x 1024. A line boxed from 300 to 470 in the recognised image is right of its middle (236.5), yet 385 is not past 585, so it is labelled left. Every box of such a screenshot is labelled left (Screenshot.TallScreenshotMisreadsSides). | The side is judged against the width of the image the boxes come from. | not executed | Screenshot.AnalyzeAsWritten | Screenshot.Analyze |
| src/app/onboarding.js:69-81 | On the last line, `setTimeout(finishOnboarding, 150)` runs the `finishOnboarding` of the render in which the vote was cast. That render's `profile` does not include the vote just made, so the last vote is never saved. | Votes yes, no, no, no, no, no, no, yes from a zeroed profile: the scores should be smooth 1 and witty 1 (witty wins the tie), but the saved profile has smooth 1 and witty 0, so `preferredRizz` is `smooth` (Onboarding.LastVoteLost; the corrected run is proved in Onboarding.FullVoteSavesDominant). | The saved profile counts all eight votes and `preferredRizz` is `witty`. | not executed | Onboarding.VoteAsWritten | Onboarding.Vote |
