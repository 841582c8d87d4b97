# Vocabulary study app — a Dafny model of its progress and session logic

The application is a single-page vocabulary trainer. A catalog of days, each with
its words (spelling, part of speech, meaning), is studied in four modes:

- a word list with a day selector, a search box and per-word status buttons
  (`wrong` / `correct` / `mastered`);
- a typing drill over a shuffled day range;
- a matching game pairing spellings with meanings;
- a daily-word mode that walks through one day and moves on to the next.

Progress is one record per named user, kept in browser-local storage. A small PDF
viewer with page navigation sits beside the modes.

The model states each handler as a pure transition over immutable datatypes:

| module | file | contents |
|---|---|---|
| `Wrappers` | `wrappers.dfy` | `Option` |
| `Text` | `text.dfy` | `trim`, ASCII case mapping, `includes` |
| `Catalog` | `catalog.dfy` | words, days, the words of a day range |
| `Shuffle` | `shuffle.dfy` | the Fisher–Yates loop |
| `Progress` | `progress.dfy` | the progress record, the status-button branches, day-status derivation |
| `Persistence` | `persistence.dfy` | loading and saving records, the user registry |
| `Stats` | `stats.dfy` | the percentage figures |
| `Typing` | `typing.dfy` | the typing drill |
| `Matching` | `matching.dfy` | the matching game |
| `Daily` | `daily.dfy` | the daily-word mode |
| `ListView` | `listview.dfy` | the list filter and the starting day |
| `PdfViewer` | `pdf.dfy` | the page counter and its key bindings |

Inputs the program takes from the world are parameters:

- Random index choices are passed in as `draws`. `ValidDraws(draws, n)` says step `i`
  picks an index in `0..i`, as `Math.floor(Math.random() * (i + 1))` does.
- Text typed into input fields is a parameter.
- The answer of a confirmation dialog is a parameter.
- What `localStorage.getItem` returns is a parameter.
- Each pending `setTimeout` callback is an explicit "timer fired" transition. The
  state counts the timers still to fire.

## Model

| member | source | states |
|---|---|---|
| Text.Trim | app.js:1010 | the trimmed text is a slice of the input with only trimmable characters cut from either end, and it neither starts nor ends with one |
| Text.TrimEmptyIff | app.js:1012-1014 | the trimmed text is empty exactly when every character of the input is whitespace or a line terminator |
| Text.Lower | app.js:1016 | lower-casing keeps the length and maps each character to its lower-case ASCII form |
| Text.LowerIdempotent | app.js:1010-1022 | lower-casing twice is lower-casing once, so the two sides of the typing comparison are normalised alike |
| Text.Includes | app.js:487-490 | `includes` holds exactly when the term occurs at some position of the text |
| Catalog.FindDay | app.js:1391 | `find` on the day list gives nothing exactly when no day has the number, and otherwise the first day that has it |
| Catalog.Tagged | app.js:1199-1201 | each word of a day is paired with that day's number, in order |
| Catalog.RangeWords | app.js:924-931 | a day-tagged word is in the range pool exactly when its day is in the catalog with a number between the bounds and the word belongs to it |
| Catalog.RangeWordsConcat | app.js:924-931 | the pool of two catalogs laid end to end is the first one's pool followed by the second's, so each in-range day contributes its words once, in catalog order |
| Catalog.CollectRangeWords | app.js:924-931 | the nested `forEach` loops (also at app.js:1196-1203), each in-range day pushing its tagged words in turn, build exactly the range pool |
| Catalog.RangeOfOneDay | app.js:1196-1203 | a range of one day number yields exactly that day's words in catalog order, when one day has that number |
| Catalog.NoneInRange | app.js:944-947 | a range no day number falls into yields the empty pool |
| Shuffle.Swap | app.js:936 | the destructuring swap exchanges two positions and keeps every other one |
| Shuffle.SwapPermutes | app.js:936 | a swap keeps the multiset of elements |
| Shuffle.ShuffleDown | app.js:934-937 | the loop from position `i` down to 1 keeps length and multiset |
| Shuffle.FisherYates | app.js:934-937 | for any index choices in range, the shuffle is a permutation of its input |
| Shuffle.StayingDrawsKeepOrder | app.js:934-937 | when every step picks its own position, the order is unchanged |
| Shuffle.PrefixSubMultiset | app.js:1217 | `slice(0, k)` takes a sub-multiset of the shuffled words |
| Progress.MasteredCountAfterSet | app.js:597-606 | writing a status changes the number of mastered keys by minus one if the key was mastered, plus one if the new status is `mastered` |
| Progress.MasteredCountAfterRemove | app.js:590-593 | deleting a key lowers the number of mastered keys by one exactly when it was mastered |
| Progress.SetStatus | app.js:595-614 | the set branch stores the status under the key and leaves every other key and every other field alone |
| Progress.ClearStatus | app.js:588-594 | the clear branch deletes the key and leaves every other key and every other field alone |
| Progress.SetStatusKeepsCounters | app.js:595-614 | the set branch keeps `masteredWords` equal to the number of mastered keys; it adds one to `studiedWords` exactly when the key had no status; it keeps `studiedWords` at least the number of keys |
| Progress.ClearStatusKeepsCounters | app.js:588-594 | the clear branch keeps the mastered agreement, never changes `studiedWords`, and keeps `studiedWords` at least the number of keys |
| Progress.SetStatusIdempotent | app.js:595-614 | clicking the same status twice is the same as clicking it once |
| Progress.StudiedInZero | app.js:639-647 | a day's studied count is 0 exactly when none of its words has a status |
| Progress.MasteredInFull | app.js:639-651 | a day's mastered count never exceeds its size, and equals it exactly when every word is mastered |
| Progress.DayStatusOf | app.js:650-656 | `not_started` exactly when no word of the day has a status; `completed` exactly when the day has words and all are mastered |
| Progress.DeriveDayStatus | app.js:629-659 | day 0, a missing catalog or an unknown day change nothing; otherwise only that day's entry is re-derived and `completedDays` equals the number of completed days |
| Progress.SetStatusAndDerive | app.js:629-659 | the set branch followed by the derivation writes the same statuses; both counters then agree with their maps, and the word's day is completed exactly when it has words and all are mastered |
| Progress.CorrectDemotesDay | app.js:650-656 | grading any word of a day `correct` makes the re-derived day `in-progress` |
| Progress.SetStatusLeavesDayStale | app.js:1417-1419 | with the later `updateDayProgress` in force, mastering the only word of day 1 leaves `daysProgress` empty, where the derivation gives day 1 `completed` |
| Persistence.OrNumber | app.js:283-292 | the logical-or default for a number keeps a present non-zero value and otherwise gives the default |
| Persistence.Save | app.js:312-314 | the stored document carries exactly the ten record fields |
| Persistence.Normalise | app.js:283-292 | counters and both maps are kept; each remembered setting is kept when non-zero and becomes its default (1 for the day and both range starts, 100 for both range ends) when zero; a record already normal is unchanged |
| Persistence.Load | app.js:276-309 | nothing stored gives the fresh record. A stored document gives each counter as stored or 0 when absent, each map as stored or empty when absent, and each setting as stored when present and non-zero, otherwise its default; every loaded record is normal |
| Persistence.SaveLoadNormalises | app.js:276-314 | loading what was saved gives the saved record in normalised form |
| Persistence.LoadIdempotent | app.js:276-314 | a load followed by save and load changes nothing more |
| Persistence.RecordKeyInjective | app.js:277 | two users share a storage key exactly when they have the same name |
| Persistence.SaveProgress | app.js:312-314 | saving writes the active user's key only; loading it back gives the normalised record; every other user's record is unchanged |
| Persistence.SwitchUser | app.js:166-182 | switching to the active user changes nothing; otherwise the user and pointer change, the incoming record is loaded, the outgoing record is saved (the only record key added), and the registry is unchanged. What every other user loads is unchanged |
| Persistence.SwitchBackRestores | app.js:166-182 | switching a→b→a gives back a's record in normalised form, and b sees only what is stored under b |
| Persistence.SetUserName | app.js:223-248 | an empty trimmed name or `default` changes nothing; otherwise the name becomes active, the registry gains exactly that name, never gains a duplicate, and stays as it was if the name was listed. A name other than the active one goes through the switch: its stored record is loaded, the outgoing record saved, and every other user's record kept; re-entering the active name keeps the record and storage |
| Persistence.Without | app.js:210-212 | the filtered registry holds exactly the other names, and has no duplicates when the registry had none |
| Persistence.DeleteUser | app.js:199-220 | without confirmation nothing changes; with it no registry entry for the name remains and every other user loads what it loaded before. Deleting another user removes exactly that user's record key and keeps the active session. Deleting the active user switches to `default`; deleting `default` while it is active removes its record and keeps the in-memory record and the session |
| Persistence.RemovedKeepsOthers | app.js:206 | removing one user's storage key leaves what every other user loads unchanged |
| Persistence.DeleteActiveUserResaves | app.js:215-216 | deleting the active (non-default) user as written leaves a stored record under the deleted name, equal to the normalised in-memory record |
| Persistence.DeleteUserFixed | app.js:199-220 | the corrected deletion removes exactly the name's record key, keeps every other user's record, leaves no registry entry for the name, keeps the session when another user is deleted, and falls back to `default` with the default user's stored record, or a fresh one if `default` itself was deleted |
| Stats.RoundedPercent | app.js:1514-1516 | round-half-up of `100·part/whole`, stated as a bound on the result, and within 0..100 when `part ≤ whole` |
| Stats.QuotientBounds | app.js:1514-1516 | the integer quotient used for rounding satisfies the round-half-up bounds |
| Stats.RoundingBoundUnique | app.js:1514-1516 | at most one integer meets the round-half-up bound, so each figure stated through it is the rounded share itself |
| Stats.Percent | app.js:1137 | 0 when there is no whole, otherwise the rounded share |
| Stats.PercentExamples | app.js:958 | 2 of 3 gives 67, 1 of 2 gives 50, 1 of 8 gives 13, and no answers give 0 |
| Stats.MasteryRate | app.js:1514-1516 | 0 with nothing studied; otherwise round-half-up of `100·masteredWords/studiedWords` as a two-sided bound; within 0..100 when `masteredWords ≤ studiedWords` |
| Stats.OverallPercent | app.js:1544-1546 | no figure exactly when the catalog reports 0 words; otherwise round-half-up of `100·keys/total_words` (keys with a status) as a two-sided bound, within 0..100 when that count is at most the total |
| Typing.ShowWord | app.js:955-977 | past the end of the pool, index and counters restart at 0 with the same pool; with a word to show, all four flags, the lock and the hint are cleared; pending timers and the attached listeners are kept |
| Typing.NextWord | app.js:1126-1131 | the index advances only when the word was answered; past the last word it wraps to 0 with the counters reset; the drill invariant, pending timers and attached listeners are kept |
| Typing.Check | app.js:1002-1084 | an answered correct word moves on; an input empty after trimming (or no word to check) changes nothing; otherwise the answer is correct exactly when trimmed-lower-cased input equals the lower-cased spelling. Both counters rise on a right answer, only the total on a wrong one. A right answer locks the input and starts one timer. The hint, both reveal flags and the listeners are kept |
| Typing.Submit | app.js:866-881 | one run of a submit handler (the check button, or one keypress listener) does nothing while the input is disabled, otherwise runs the check; it counts at most one answer |
| Typing.SubmitTimes | app.js:866-871 | several handlers run in turn keep the drill invariant and the pool, and do nothing on a disabled input |
| Typing.Enter | app.js:866-871 | Enter runs one handler per attached keypress listener: none does nothing, one is a single submit |
| Typing.WrongAnswerCountedPerListener | app.js:866-871 | a wrong answer (app.js:1045-1075) leaves the input enabled, so with `k` listeners one Enter raises the total by `k` and the right count by nothing |
| Typing.WrongAnswerStaysOpen | app.js:1045-1049 | one check of a wrong answer on an open input records it as answered wrong, counts it, and leaves the input open |
| Typing.RightAnswerCountedOnce | app.js:1022-1032 | a right answer disables the input, so any number of listeners count it once |
| Typing.OpenTyping | app.js:850-882 | showing the mode applies the range as `applyTypingRange` does and attaches one more keypress listener |
| Typing.HintLetter | app.js:1090-1092 | the hint is the upper-cased first letter of the lower-cased spelling, empty for an empty spelling |
| Typing.ShowHint | app.js:1087-1095 | the hint is revealed once; with the hint already shown nothing changes |
| Typing.ShowAnswer | app.js:1098-1112 | the answer is revealed once and the input disabled; with the answer already shown nothing changes |
| Typing.Retry | app.js:1066-1079 | the retry closure reopens the same word: answered, reveal flags, lock and hint cleared; counters, `isCorrect`, pending timers and listeners kept |
| Typing.AdvanceTimerFired | app.js:1041-1043 | a pending auto-advance timer runs `nextTypingWord`; without one nothing happens |
| Typing.StepKeepsInv | app.js:1002-1131 | no drill event breaks `correct ≤ total`, moves the index off a non-empty pool, or adds or removes a keypress listener |
| Typing.RevealsIdempotent | app.js:1087-1099 | revealing the hint or the answer twice is revealing it once |
| Typing.ApplyRange | app.js:909-952 | the range is stored in the record even when it has no words; the pool is a permutation of the range's words; index and counters restart at 0 |
| Typing.Accuracy | app.js:1137 | 0 before any answer, otherwise round-half-up of `100·correct/total`, within 0..100 |
| Typing.RightThenAdvance | app.js:1022-1043 | a right answer on a fresh word followed by its timer raises both counters by one and shows the next word fresh |
| Typing.TrimmedAsTyped | app.js:1010 | the example answers have no surrounding whitespace |
| Typing.AnswerCat | app.js:1022-1043 | in the worked example, `cat` for `cat` and its timer lead to the second word with 1 right of 1 |
| Typing.AnswerDog | app.js:1016-1043 | `Dog` for `dog` is right after lower-casing and leads to the third word with 2 right of 2 |
| Typing.AnswerFoxWrongly | app.js:1045-1049 | `wrong` for `fox` is counted wrong: 2 right of 3, the input still open |
| Typing.ThreeAnswers | app.js:1022-1048 | typing `cat`, `Dog`, then a wrong word gives 2 right of 3 and accuracy 67 |
| Matching.WordCards | app.js:1237-1241 | one word card per pool word, with its spelling and id |
| Matching.MeaningCards | app.js:1248-1252 | one meaning card per pool word, with its meaning and id |
| Matching.MatchedCountBounds | app.js:1321 | at most as many matched cards as cards; all matched exactly when the count is full; none exactly when it is 0 |
| Matching.MatchedCountUpdate | app.js:1311-1312 | changing one card changes the matched count by that card's change alone |
| Matching.SelectionKeepsBoard | app.js:1298 | changing only a card's `selected` class keeps the board facts and every card's `matched` class |
| Matching.CheckPair | app.js:1307-1336 | a pair (different type, same id) adds one pair and its two cards become matched and lose `selected`, every other card unchanged; a mismatch changes no card and queues one unselect timer; the buffer is emptied either way |
| Matching.MatchAddsPair | app.js:1310-1318 | matching a word card with a meaning card adds one matched card to each column and keeps the score at ten per pair |
| Matching.Pick | app.js:1298-1299 | a free card gets the `selected` class and joins the buffer, every other card unchanged; with one card waiting, the two form the pair `checkMatching` is given, pairing up exactly as the original cards do |
| Matching.Select | app.js:1293-1304 | no card, a matched card or a selected card is ignored. A first pick selects only that card and buffers it. A second pick adds a pair exactly when the two cards pair up: then both become matched and unselected, otherwise only the new card is selected; no other card changes, and the buffer is emptied. A matched card stays matched |
| Matching.SecondPick | app.js:1298-1336 | a second pick followed by `checkMatching` changes only the two picked cards, and no matched card loses its class |
| Matching.Unselect | app.js:1330-1331 | taking off a `selected` class changes that card in that class only and keeps the game invariant |
| Matching.MismatchTimerFired | app.js:1329-1332 | the oldest unselect timer fires and leaves the queue; its two cards lose `selected`, no other card changes, and pairs and buffer are unchanged |
| Matching.UnselectBoth | app.js:1330-1331 | unselecting two cards in turn changes only those two, each in its `selected` class |
| Matching.PairsBounded | app.js:1316-1321 | the score is ten per pair; pairs never exceed the pool size; the game is complete exactly when every card is matched |
| Matching.FreshColumn | app.js:1242-1256 | a shuffled column of fresh cards of one kind is again fresh cards of that kind |
| Matching.DisplayBoard | app.js:1225-1290 | each column is a permutation of the pool's cards, nothing matched, score 0 |
| Matching.StartGame | app.js:1194-1222 | an empty range leaves the previous game untouched; otherwise the pool is `min(10, n)` words drawn from a permutation of the range, all of them when `n ≤ 10`, with counters cleared |
| Matching.ApplyRange | app.js:1176-1191 | the range is stored in the record, then a game is started on it |
| Matching.SameIdAcrossDaysMatches | app.js:1310 | the spelling of word 7 of day 1 and the meaning of word 7 of day 2 are accepted as a pair |
| Daily.NextDayNumber | app.js:1430-1433 | the day after `d` is `d + 1`, and the day after 100 is 1 |
| Daily.LoadDayWords | app.js:1390-1414 | a day missing from the catalog changes nothing; otherwise the words shown come from the catalog day. Only day statuses (to `completed`), `completedDays` and the remembered day may change |
| Daily.ShowSpeedWord | app.js:1422-1456 | with a word left it is shown with the meaning hidden. With none left, that day becomes `completed` whatever its word statuses, and `completedDays` counts completed days. When the catalog lacks the next day, the next day is remembered and the session stays on the used-up words under the next day's number. Word statuses and counters never change |
| Daily.ExhaustedDayMovesOn | app.js:1423-1443 | a used-up day hands over to the next day when it has words: its first word, the next day remembered, the used-up day completed |
| Daily.LastDayWrapsAround | app.js:1430-1436 | after day 100 comes day 1, and it becomes `lastDayNumber` |
| Daily.Reveal | app.js:1459-1465 | revealing sets the flag and nothing else |
| Daily.SpeedAnswer | app.js:1468-1503 | with the meaning hidden only the meaning is revealed. With it shown, the word's key gets `correct` or `wrong` only, `studiedWords` rises by one, `masteredWords` stays, and one timer starts. With no word left nothing changes |
| Daily.SpeedTimerFired | app.js:1499-1502 | a pending timer moves to the next word and hides its meaning; without one nothing happens |
| Daily.ApplySpeedDay | app.js:1376-1443 | a selection outside 1..100 or unparsable is ignored. A day in range that the catalog lacks is remembered and becomes the session's day; one with words is remembered and its first word shown. A catalog day without words is completed with `completedDays` recounted, and the next day is remembered and taken up. No word status or word counter changes |
| Daily.EmptyDayMovesOn | app.js:1389-1443 | loading a catalog day without words completes it and moves to the next day: to its first word when it has words, or onto its number when the catalog lacks it |
| Daily.OpeningDay | app.js:1339-1351 | the mode opens on the remembered day when it lies in 1..100, otherwise on the current day raised to at least 1 |
| Daily.EnterSpeedMode | app.js:359-364 | opening the mode only ever changes day statuses, their count and the remembered day |
| Daily.SpeedAnswerKeepsStudiedCovers | app.js:1479-1485 | grading keeps `studiedWords` at least the number of keys with a status |
| Daily.SpeedAnswerMiscounts | app.js:1479-1485 | grading a mastered word `correct` leaves `masteredWords` counting it; grading one word twice counts it twice as studied |
| Daily.SpeedAnswerFixed | app.js:1468-1503 | the corrected handler reveals first and writes the same grade; it keeps `masteredWords` equal to the mastered keys and `studiedWords` equal to the keys with a status |
| ListView.FilterWords | app.js:487-490 | a word passes the filter exactly when it is a word of the day and its lower-cased spelling, or its meaning as typed, contains the term |
| ListView.FilterWordsConcat | app.js:487-490 | filtering two word lists laid end to end is filtering each in turn, so the passing words keep their catalog order and multiplicity |
| ListView.DaysToShow | app.js:471-480 | no selection shows every day; a selected number shows the first day with it, or none |
| ListView.DaySection | app.js:482-495 | with a term, a day shows only its matching words and is skipped when none match; without a term it shows all its words |
| ListView.DaySectionLists | app.js:486-495 | with a term, a day's section lists exactly its filtered words in order, and is left out exactly when none pass |
| ListView.Sections | app.js:482-519 | one section per day without a term; with a term every section is non-empty and lists only matching words; each section heads a day of the list and lists only that day's words |
| ListView.SectionsConcat | app.js:482-519 | the sections of two day lists laid end to end are the first list's sections followed by the second's, so sections follow the days' catalog order, each day giving its own section |
| ListView.SectionsOfTail | app.js:482 | sections built from the later days belong to the whole day list |
| ListView.SectionsComplete | app.js:486-495 | every matching word of a shown day is listed under a heading for that day |
| ListView.VisibleSections | app.js:464-495 | the search text is lower-cased but not trimmed; every word shown passes the search test; without a term every admitted day has a section |
| ListView.StartingDay | app.js:71-85 | a remembered day is used; otherwise the first day in 1..100 not completed; otherwise the current day |
| PdfViewer.Next | pdf-viewer.js:376-381 | the page rises by one only when it is below the page count, otherwise nothing changes |
| PdfViewer.Prev | pdf-viewer.js:384-389 | the page falls by one only when it is above 1, otherwise nothing changes |
| PdfViewer.ButtonState | pdf-viewer.js:398-404 | previous is disabled exactly when the page is at most 1, next exactly when it is at least the page count |
| PdfViewer.ButtonsMatchMoves | pdf-viewer.js:398-404 | a button is disabled exactly when its move would change nothing |
| PdfViewer.BeginOpen | pdf-viewer.js:92 | opening shows the overlay before the document arrives, keeping the counter |
| PdfViewer.Loaded | pdf-viewer.js:268-271 | a loaded document sets page 1 and its page count; opening by path stores the path, opening from data keeps the old one |
| PdfViewer.Close | pdf-viewer.js:454-457 | closing hides the viewer and resets page to 1, count to 0 and path to empty |
| PdfViewer.OnKey | pdf-viewer.js:461-475 | while shown, ArrowRight/ArrowDown go next, ArrowLeft/ArrowUp go back, Escape closes, and any other key or a hidden viewer changes nothing |
| PdfViewer.TransitionsKeepPageInv | pdf-viewer.js:122-124 | every transition keeps `1 ≤ page ≤ max(1, count)` |
| PdfViewer.NextThenPrev | pdf-viewer.js:376-389 | next then previous returns to the same page when `1 ≤ page < count` |
| PdfViewer.PrevThenNext | pdf-viewer.js:376-389 | previous then next returns to the same page when `1 < page ≤ count` |
| PdfViewer.NextAfterCloseIsNoop | pdf-viewer.js:377 | after closing, next changes nothing, also once the overlay is shown again before a load |

## Left out

- DOM construction, styling, focus, `alert`, `confirm` text and other screen output are not modelled. The dialog's answer is a parameter.
- `setTimeout` delays are explicit "timer fired" transitions, with no notion of time. Timers of other modes are not modelled: the 100 ms `checkStudyComplete` after a status click, and the completion alert of the matching game.
- `Math.random` is replaced by caller-supplied index choices. Uniformity of the shuffle is not a property of the model.
- `Date.now` and the words-per-minute figure (app.js:1135-1136) need a clock and floating-point division.
- Floating-point percentages are not modelled. Rounding is exact round-half-up on integers, which agrees with `Math.round` except where the floating-point quotient misrounds a value at exactly .5.
- Stats.OverallPercent: with a catalog of 0 words the source shows `NaN` or `Infinity`; the model returns no figure.
- `createWordCard` and `toggleWordStatus` are dead code (no caller in the application's scripts).
- `loadData` and its `fetch` of the catalog are not modelled. The catalog is a parameter, and the modes that read it take it as present. The model has no catalog-missing path for them: the source would throw there.
- The QR code, the mobile menu, `checkStudyComplete` and `goToTypingPractice` are UI navigation, not state logic.
- PDF.js loading and rendering, the scale computation, `ResizeObserver`, the `file:` protocol alert and the URL path fallback are not modelled. A failed load ends in `PdfViewer.Close`.
- `sw.js` is service-worker cache I/O and is not part of this model.
- Case mapping covers the ASCII letters only. `toLowerCase` and `toUpperCase` on other scripts are not modelled; Korean meanings have no case.
- Stored values of the wrong JSON type (a string where a number is expected, say) are not modelled. A saved field is present with its type, or absent.
- Persistence.SwitchUser: the re-initialisation of the visible mode that `switchUser` triggers through `showMode` (app.js:189-193) is not modelled.
- `parseInt` of a selector value is modelled as an `Option<int>` in `Daily.ApplySpeedDay`. The typing and matching ranges take the parsed numbers as given; a `NaN` bound selects no day, which an empty range models.
- Daily.LoadDayWords, Daily.ShowSpeedWord: the chain of used-up days is bounded by `DailyFuel` (101 hops). Past the first hop every day number lies in 1..100, so a chain that needs more hops revisits a day and never ends in the source. The model stops there instead of looping.
- Writing storage after each handler: `Progress.SetStatus`, `Typing.ApplyRange`, `Matching.ApplyRange`, `Daily.ShowSpeedWord`, `Daily.ApplySpeedDay` and `Daily.SpeedAnswer` return the changed record and do not write storage. Their trailing `saveProgress()` (app.js:616, 921, 1188, 1384, 1437, 1487) is the separate `Persistence.SaveProgress`, whose contract gives that the next load returns the normalised record. No handler is composed with it, so storage in the model is written only by user switching and deletion.
- Typing: the next button's handler is whichever closure was attached last. Both the retry closure and `nextTypingWord` are offered as separate events, without tracking which one is attached.
- Typing.ShowAnswer: the text it writes into the input field is not modelled. The field's content is a parameter of the next check.
- A day numbered 0 gets the status key `unknown-<id>` in the list mode and `0-<id>` in daily mode. The model keys both as `(0, id)`.
- Day statuses are keyed by day number rather than by the string `day-<n>`. Word statuses are keyed by the pair `(day, id)` rather than by `<day>-<id>`. Both string encodings are one-to-one on integers.

Behaviour of the code that its own comments suggest otherwise:

- The branch at app.js:586 is commented as toggling the current button. The handler removes `active` from every button before it tests the clicked one (app.js:582-584), so every click takes the set branch and a second click re-sets (`Progress.SetStatusIdempotent`). `Progress.ClearStatus` models the unreachable clear branch on its own.
- The helper at app.js:628-629 is commented as the day-progress update helper. The later one-line `updateDayProgress` (app.js:1417-1419) replaces it, so the list handler never re-derives a day (Finding 1).
- The list handler's comment at app.js:724 raises `studiedWords` only on a word's first study. Daily mode raises it on every answer (app.js:1479-1485, Finding 3).
- The search lower-cases the term and the spelling only (app.js:465, app.js:487-490). A meaning is searched as written, so Latin capitals in a meaning never match the lower-cased term.

## Findings

| source | as written | input that shows it | evidently intended | confidence | as-written member | corrected member |
|---|---|---|---|---|---|---|
| app.js:594, app.js:613, app.js:1417-1419 | the status handler calls `updateDayProgress(word.day)`. The later one-line declaration of that name wins, so `daysProgress` and `completedDays` are never re-derived from the list mode | catalog day 1 holding one word; mark it `mastered` from a fresh record: `daysProgress` stays empty | re-derive the word's day and recount completed days after each status change | high (not executed) | Progress.SetStatusLeavesDayStale | Progress.SetStatusAndDerive |
| app.js:215-216, app.js:173 | deleting the active user calls `switchUser('default')`, which first saves the in-memory record under the deleted user's key | active user `bob` (not `default`), confirmed deletion of `bob`: `studyProgress_bob` is stored again. The rendered list offers no delete button for the active user (app.js:160), so only a direct call reaches this branch | delete the record and fall back to `default` without re-saving it | medium (not executed) | Persistence.DeleteActiveUserResaves | Persistence.DeleteUserFixed |
| app.js:1479-1485 | `speedAnswer` overwrites the status without adjusting `masteredWords`, and raises `studiedWords` on every answer | word (1, 1) `mastered` with `masteredWords` 1, answered `correct`: `masteredWords` stays 1 with no mastered key. Answering a fresh word twice gives `studiedWords` 2 for one key | the list handler's bookkeeping: decrement on leaving `mastered`, count a word once | high (not executed) | Daily.SpeedAnswerMiscounts | Daily.SpeedAnswerFixed |
| app.js:375, app.js:866-871, app.js:1045-1075 | each visit to the typing mode runs `initTypingMode`, which attaches another `keypress` listener to the same input; none is removed. A wrong answer leaves the input enabled, so every listener checks it again | open the typing mode, switch to the list, open the typing mode again, type a wrong word and press Enter: 0 right of 2 answers for one key press | one key press checks the answer once, as the check button (whose `onclick` is replaced on each visit) does | high (not executed) | Typing.WrongAnswerCountedPerListener | Typing.Submit |
