# Lead-generation site: a verified model of its stateful logic

The site is a React single-page marketing front end with a qualification funnel and lead forms. Almost all of it is layout and
animation. This project models the parts that hold state or make decisions, and proves what
they promise:

- **Lead forms** (`LeadForm`, with `FormRecord` and `Strings`). The discovery-call form and
  the consultation-booking form are one engine parameterised by a `Schema`. The schema
  carries the required-field table, the optional e-mail field, the relay access key, the
  subject and the attachment key. It is instantiated as `Qualified` and `Disqualified`.
- **Form state**. `formData` is an insertion-ordered JavaScript object, modelled as an
  association list. `handleChange` is its spread-and-overwrite.
- **Submission**. It is split at the `fetch`:
  - `BeginSubmit` locks the button, resets the status and builds the multipart payload with
    a loop.
  - `FinishSubmit` takes the relay's answer as input data (`Reply`) and sets the status
    string, the reset and the lock release.
  - Two banners read the status string back.
- **Qualification funnel** (`Hire`, `Button`, `Routes`):
  - the two selections of the Getting Started page, as a fold over change events;
  - the next-route decision and the NEXT button's guard;
  - the `Button` component, which renders either an inert span or a router link;
  - the route table with its catch-all not-found page.
- **Screenshot gallery** (`Screenshots`):
  - the two-column packing, as a loop method proved against a recursive specification;
  - the viewport breakpoints for the collapsed height;
  - the one-way Load More flag and the set of loaded images, in a `Gallery` class.
- **Video review slider** (`ReviewSlider`): page-wise previous/next clamped to the last page
  start, the bullet row, and the press/drag/release gesture as a `DragGesture` class.
- **Client stories carousel** (`ClientReviews`): modular previous/next behind an animation
  lock, in a `Carousel` class.
- **Home page** (`HomePage`): the sticky header's observer, its intercepted link clicks
  with the deferred navigation, and the hero video's loaded latch.

Timers are explicit "fires" events. Window widths, pointer coordinates, relay answers and
observer entries are parameters.

- `ClientReviewsSection` computes `% reviews.length` and reads `reviews[currentReviewIndex]`,
  so `ClientReviews.Carousel` requires at least one review.
- The submit button is `disabled={isSubmitting || !isFormValid}`: it is also disabled while
  a submission is in flight.

## Model

| member | source | states |
|---|---|---|
| Strings.Trim | src/components/DisqualifiedForm.tsx:49 | `trim()` removes exactly the ECMAScript white space at both ends: the result is the middle slice of the input with no white space at its ends, and it is empty iff the input is all white space |
| Strings.TrimAfterSpace | src/components/DisqualifiedForm.tsx:402 | for a prefix made only of white space, `trim()` of the prefix followed by any text equals `trim()` of that text |
| Strings.DecimalRoundTrip | src/components/DisqualifiedForm.tsx:114 | the decimal text of a status code reads back as the same number |
| FormRecord.Put | src/components/DisqualifiedForm.tsx:69 | `{ ...prev, [name]: value }` makes `name` hold `value` and leaves every other key's value, the existing key order and key distinctness as they were |
| FormRecord.LookupAt | src/components/DisqualifiedForm.tsx:47 | with distinct keys, reading a key finds the value stored at its position |
| LeadForm.SchemasWellFormed | src/components/DisqualifiedForm.tsx:5-14 | both required-field tables name each field once |
| LeadForm.Blank | src/components/DisqualifiedForm.tsx:23-32 | the initial form data holds every field of the table, each empty, once |
| LeadForm.EmailPatternIff | src/components/DisqualifiedForm.tsx:17-20 | `isValidEmail` holds iff the string has no white space, exactly one `@` with something before it, and a `.` after it that is neither the first nor the last character of the domain; this is exactly the language of `^[^\s@]+@[^\s@]+\.[^\s@]+$` |
| LeadForm.PaddedEmailRejected | src/components/DisqualifiedForm.tsx:17-20 | an address with white space at either end is invalid |
| LeadForm.NoAtRejected | src/components/DisqualifiedForm.tsx:17-20 | a string without `@` is never an address |
| LeadForm.NotAnEmail | src/components/DisqualifiedForm.tsx:17-20 | `not-an-email` is rejected |
| LeadForm.IsValidEmail | src/components/DisqualifiedForm.tsx:17-20 | an accepted address has at least five characters and neither starts nor ends with `@`; `LeadForm.EmailPatternIff` gives its exact language |
| LeadForm.FormValidIff | src/components/DisqualifiedForm.tsx:41-63 | the `.every` over the table holds iff every required field holds a character other than white space (so `trim()` leaves it non-empty) and the e-mail field, where the schema has one, is a valid address |
| LeadForm.IsFormValid | src/components/DisqualifiedForm.tsx:41-63 | `isFormValid`, the `.every` over the table; `LeadForm.FormValidIff` states it field by field |
| LeadForm.AllFieldsOkIff | src/components/QualifiedForm.tsx:30-51 | the `.every` from any position on holds iff each remaining rule's requirement holds |
| LeadForm.OptionalFieldIrrelevant | src/components/DisqualifiedForm.tsx:43-45 | changing an optional field (`additionalNotes`, `extraInfo`) never changes validity |
| LeadForm.DisqualifiedValidity | src/components/DisqualifiedForm.tsx:5-14 | the booking form is valid iff its seven required fields each hold a non-white-space character and the e-mail, as typed, is valid |
| LeadForm.QualifiedValidity | src/components/QualifiedForm.tsx:5-12 | the discovery-call form is valid iff its five required fields each hold a non-white-space character, with no format check |
| LeadForm.PaddedEmailKeepsFormInvalid | src/components/DisqualifiedForm.tsx:47-53 | the blank check trims but the e-mail check does not, so a padded address keeps the form invalid |
| LeadForm.MalformedEmailKeepsFormInvalid | src/components/DisqualifiedForm.tsx:50-53 | `not-an-email` keeps the booking form invalid whatever the other fields hold |
| LeadForm.BlankFormInvalid | src/components/QualifiedForm.tsx:14-22 | a fresh or reset form with a required field is invalid, so its button starts disabled |
| LeadForm.BuildPayload | src/components/DisqualifiedForm.tsx:84-99 | the append loop produces exactly the payload: access key, subject, every entry in order, then the file if any |
| LeadForm.PayloadContents | src/components/QualifiedForm.tsx:72-87 | the payload starts with access key and subject, carries every schema field with its current value, and has a file part iff a file is selected |
| LeadForm.BlankInDeclarationOrder | src/components/QualifiedForm.tsx:14-22 | the initial form data lists the fields in declaration order |
| LeadForm.PutKeepsOrder | src/components/QualifiedForm.tsx:53-58 | changing a field of the table keeps the declaration order |
| LeadForm.PayloadInDeclarationOrder | src/components/DisqualifiedForm.tsx:84-99 | with the data in declaration order, part `2+i` is field `i` with its value, after the two fixed parts, and the file comes last |
| LeadForm.Evaluate | src/components/DisqualifiedForm.tsx:108-157 | the submission succeeds iff the body parsed, the response is OK and `success` is truthy; every failure carries a message, which is empty only when a thrown `Error` had an empty message |
| LeadForm.FailureMessages | src/components/DisqualifiedForm.tsx:112-157 | a thrown `Error` fails with its own message and any other thrown value with `Unknown error occurred`; an unparsable body fails with `Invalid response from server: ` and the status; a non-OK response fails with the relay's `message`, or with `HTTP error! status: ` and the status when it sent none |
| LeadForm.FailurePrecedence | src/components/QualifiedForm.tsx:131-137 | on a logical failure `message` wins over `error`, and both over the fixed fallback text |
| LeadForm.StatusRoundTrip | src/components/DisqualifiedForm.tsx:126-157 | the status string of an outcome reads back as that outcome and is never `idle` |
| LeadForm.IdleIsNoOutcome | src/components/DisqualifiedForm.tsx:81 | `idle` reads back as no outcome |
| LeadForm.StatusText | src/components/DisqualifiedForm.tsx:126-157 | the status string each outcome sets; `LeadForm.StatusRoundTrip` proves it reads back as that outcome and is never `idle` |
| LeadForm.ErrorBanner | src/components/DisqualifiedForm.tsx:397-403 | the error banner shows iff the status starts with `error`; without a colon it shows the fixed apology, with one a text with no white space at either end |
| LeadForm.ErrorBannerOfFailure | src/components/DisqualifiedForm.tsx:397-403 | the error banner of a failure shows the message up to its first `:`, trimmed |
| LeadForm.BannerCutsAtColon | src/components/QualifiedForm.tsx:324-331 | a message `head:tail` shows `head` when `head` has no white space at its ends |
| LeadForm.BannersExclusive | src/components/QualifiedForm.tsx:319-331 | the success banner shows iff the outcome succeeded, the error banner iff it failed (as written and as intended), and `idle` shows neither |
| LeadForm.InvalidResponseBanner | src/components/DisqualifiedForm.tsx:112-115 | an unparsable body shows `Invalid response from server` for every status code |
| LeadForm.HttpErrorBanner | src/components/DisqualifiedForm.tsx:119-123 | a non-OK response without a message shows `HTTP error! status`, without the code |
| LeadForm.IntendedBannerShowsMessage | src/components/DisqualifiedForm.tsx:397-403 | the corrected banner shows the whole failure message, trimmed |
| LeadForm.BannersAgreeWithoutColon | src/components/DisqualifiedForm.tsx:397-403 | the written and the corrected banners agree on every message without a colon |
| LeadForm.Form.constructor | src/components/DisqualifiedForm.tsx:22-38 | a form mounts with every field empty, no file, unlocked and `idle` |
| LeadForm.Form.SubmitDisabled | src/components/DisqualifiedForm.tsx:377 | `isSubmitting || !isFormValid`; `LeadForm.BlankFormInvalid` proves a fresh form starts disabled and `LeadForm.Form.BeginSubmit` locks it while a submission runs |
| LeadForm.Form.HandleChange | src/components/DisqualifiedForm.tsx:65-70 | the named field takes the new value and every other field keeps its value |
| LeadForm.Form.BeginSubmit | src/components/DisqualifiedForm.tsx:78-99 | the button locks, the status becomes `idle`, and the payload is built from the current state |
| LeadForm.Form.FinishSubmit | src/components/DisqualifiedForm.tsx:100-160 | the status becomes the outcome's text; success clears every field and the file, failure keeps them; the lock is released on every path |
| Button.Render | src/components/Button.tsx:10-31 | a disabled button is an `aria-disabled` span with `pointer-events-none` and `opacity-50`; an enabled one links to exactly `link` with `pointer-events-auto`; both start with the classes of their kind |
| Button.TargetOfButton | src/components/Button.tsx:13-31 | a disabled button navigates nowhere and an enabled one to its link |
| Button.Target | src/components/Button.tsx:13-29 | where activating the rendered element goes: nowhere for the span, the link's `to` otherwise; `Button.TargetOfButton` ties it to `disabled` |
| Routes.Find | src/App.tsx:13-16 | the route found for a path is the first route with that path, and none is found iff no route has it |
| Routes.Resolve | src/App.tsx:13-16 | a path renders the not-found page iff it is not in the table, and otherwise the page of its route |
| Routes.TitleOf | src/pages/Exportation.tsx:12-38 | a path has a title iff it is in the table, and it is its route's title |
| Routes.TableShape | src/pages/Exportation.tsx:12-38 | exactly five routes, in the order `/`, `/getting-started`, `/discovery-call`, `/disqualified`, `/book-consultation`, with distinct paths |
| Routes.RouteOfPath | src/pages/Exportation.tsx:12-38 | each table path has exactly its route's title and page |
| Routes.DisqualifiedTitle | src/pages/Exportation.tsx:28-32 | `/disqualified` is titled `Not Qualified Yet` and renders the not-qualified page |
| Routes.FunnelLinksResolve | src/pages/Warn.tsx:12-16 | every in-site link target of the Hire page, the not-qualified page, the header and the home page resolves to a table page |
| Routes.UnknownPathNotFound | src/App.tsx:16 | any other path renders the not-found page and has no title |
| Hire.NextLink | src/pages/Hire.tsx:10 | NEXT leads to `/disqualified` iff the revenue answer is `unValid`, and to `/discovery-call` otherwise |
| Hire.NextLinkIgnoresAdSpend | src/pages/Hire.tsx:10 | the ad-spend answer never changes the next route |
| Hire.NextButtonTarget | src/pages/Hire.tsx:56-61 | NEXT goes nowhere while either answer is empty, else to the next route, which renders the not-qualified or the discovery-call page |
| Hire.PrevButtonTarget | src/pages/Hire.tsx:55 | PREV always links to the home page |
| Hire.HireLinksListed | src/pages/Hire.tsx:55-60 | both targets NEXT can have, and PREV's, are in the site's link list, so `Routes.FunnelLinksResolve` covers them |
| Hire.RunSelections | src/pages/Hire.tsx:23-49 | after any real selections, each answer is empty iff never chosen and otherwise one of its options |
| Hire.NextEnabledIffBothAnswered | src/pages/Hire.tsx:59 | NEXT is enabled iff both questions have been answered at least once |
| Hire.InitiallyDisabled | src/pages/Hire.tsx:7-8 | on arrival both answers are empty and NEXT goes nowhere |
| Hire.Apply | src/pages/Hire.tsx:23-49 | a change event sets its own select's answer and leaves the other answer as it was |
| Hire.Run | src/pages/Hire.tsx:7-8 | the answers after a sequence of change events from mount; `Hire.RunSelections` characterises them |
| Hire.NextDisabled | src/pages/Hire.tsx:59 | NEXT's guard, either answer empty; `Hire.NextEnabledIffBothAnswered` proves it lifts exactly when both questions are answered |
| Hire.NextButton | src/pages/Hire.tsx:56-61 | the NEXT button's props; `Hire.NextButtonTarget` gives where it leads |
| Hire.PrevButton | src/pages/Hire.tsx:55 | the PREV button's props; `Hire.PrevButtonTarget` proves it leads home |
| Screenshots.DistributeColumns | src/components/Screenshots.tsx:105-134 | the `forEach` loop produces exactly the specified columns: even/odd without heights, greedy with them |
| Screenshots.HeightAt | src/components/Screenshots.tsx:121 | the height used for an image is positive: its measured height when known and non-zero, otherwise 300 |
| Screenshots.Greedy | src/components/Screenshots.tsx:119-131 | the greedy packing of the first `k` images; `Screenshots.GreedyPartition`, `GreedyHeights`, `GreedyChoice`, `GreedyBalance` and `GreedyPrefix` state its properties |
| Screenshots.EvenOdd | src/components/Screenshots.tsx:111-118 | the packing before heights are known; `Screenshots.EvenOddPartition` states it |
| Screenshots.Columns | src/components/Screenshots.tsx:105-134 | the columns shown, even/odd without heights and greedy with them; `Screenshots.ColumnsPartition` states it and `Screenshots.DistributeColumns` is proved equal to it |
| Screenshots.AppendIncreasing | src/components/Screenshots.tsx:112-117 | pushing a new largest index keeps a column strictly increasing |
| Screenshots.AppendIndex | src/components/Screenshots.tsx:123-129 | pushing the next index onto either column keeps the columns a partition |
| Screenshots.GreedyPartition | src/components/Screenshots.tsx:119-131 | the greedy packing puts every index in exactly one column, once, in increasing order |
| Screenshots.EvenOddPartition | src/components/Screenshots.tsx:111-118 | the fallback is a partition with index `i` in column 1 iff `i` is even |
| Screenshots.ColumnsPartition | src/components/Screenshots.tsx:105-134 | whatever heights are known, every image is shown exactly once |
| Screenshots.EvenOddFallback | src/components/Screenshots.tsx:111-118 | with no heights, image `i` is in column 1 iff even and in column 2 iff odd |
| Screenshots.GreedyHeights | src/components/Screenshots.tsx:120-130 | the running heights are the sums of the heights placed in each column, with missing or zero heights counting 300 |
| Screenshots.GreedyPrefix | src/components/Screenshots.tsx:120-130 | later images never move earlier ones |
| Screenshots.GreedyChoice | src/components/Screenshots.tsx:123-129 | image `i` ends in column 1 iff column 1 was not taller at its turn (ties to column 1) |
| Screenshots.GreedyBalance | src/components/Screenshots.tsx:120-130 | after every step the columns differ by at most the tallest image placed so far |
| Screenshots.MaxHeightFor | src/components/Screenshots.tsx:138-150 | 100vh iff width ≥ 1024, 80vh iff 768 ≤ width < 1024, 60vh iff width < 768 |
| Screenshots.MaxHeightMonotone | src/components/Screenshots.tsx:138-150 | a wider viewport never gets a lower collapsed gallery |
| Screenshots.PreloadCount | src/components/Screenshots.tsx:71 | at most six images, and all of them when there are fewer |
| Screenshots.Below | src/components/Screenshots.tsx:93 | the index range `0..k-1` as a set |
| Screenshots.PreloadMarkDropsLoaded | src/components/Screenshots.tsx:92-94 | as written, an image already marked loaded by its own event is dropped when the preload completes |
| Screenshots.PreloadMark | src/components/Screenshots.tsx:92-94 | corrected: completion adds the preloaded indices and loses nothing |
| Screenshots.Gallery.constructor | src/components/Screenshots.tsx:26-35 | the gallery mounts collapsed at 50vh with no heights and nothing loaded |
| Screenshots.Gallery.LoadMore | src/components/Screenshots.tsx:390 | Load More expands the gallery for good and hides the mask and the control |
| Screenshots.Gallery.MaskShown | src/components/Screenshots.tsx:371-395 | the mask and the Load More control show exactly while collapsed; `Screenshots.Gallery.LoadMore` hides them for good |
| Screenshots.Gallery.Resize | src/components/Screenshots.tsx:138-154 | a resize sets the collapsed height by the breakpoints |
| Screenshots.Gallery.ImageLoaded | src/components/Screenshots.tsx:281-290 | an image's load event adds its index to the loaded set |
| Screenshots.Gallery.PreloadComplete | src/components/Screenshots.tsx:88-95 | the measured heights take effect for exactly the preloaded images, and the loaded set becomes exactly the preloaded indices, whatever it held before |
| Screenshots.Gallery.PreloadCompleteCorrected | src/components/Screenshots.tsx:92-94 | corrected completion: the heights take effect and the loaded set grows by the preloaded indices, so nothing already loaded is lost |
| ReviewSlider.CardsPerView | src/components/CustomerReviewsSlider.tsx:340 | at least one card per view: one on mobile, four otherwise |
| ReviewSlider.Prev | src/components/CustomerReviewsSlider.tsx:111-116 | previous never moves forward; from a non-zero index it goes back one page, not below 0 |
| ReviewSlider.Next | src/components/CustomerReviewsSlider.tsx:118-129 | next never moves back; below the last page start it goes forward one page, not past it |
| ReviewSlider.ArrowsEnabledIffMove | src/components/CustomerReviewsSlider.tsx:341-343 | `canGoPrev` and `canGoNext` hold exactly when the arrow would move the slider |
| ReviewSlider.CanGoPrev | src/components/CustomerReviewsSlider.tsx:342 | `canGoPrev`; `ReviewSlider.ArrowsEnabledIffMove` proves it holds iff the previous arrow moves |
| ReviewSlider.CanGoNext | src/components/CustomerReviewsSlider.tsx:343 | `canGoNext`; `ReviewSlider.ArrowsEnabledIffMove` proves it holds iff the next arrow moves |
| ReviewSlider.ShouldShowNavigation | src/components/CustomerReviewsSlider.tsx:341 | the arrows render only when the cards do not all fit in one view |
| ReviewSlider.BulletsShown | src/components/CustomerReviewsSlider.tsx:437 | the bullet row renders with the arrows and more than two cards |
| ReviewSlider.ArrowsKeepRange | src/components/CustomerReviewsSlider.tsx:111-129 | with the view mode fixed, the arrows keep the index within `[0, max(0, n - cardsPerView)]` |
| ReviewSlider.PrevUndoesNext | src/components/CustomerReviewsSlider.tsx:111-129 | away from the last page, previous undoes next |
| ReviewSlider.BulletCount | src/components/CustomerReviewsSlider.tsx:449-452 | one bullet per card on mobile, `ceil(n/4)` bullets otherwise |
| ReviewSlider.BulletsKeepRange | src/components/CustomerReviewsSlider.tsx:454-489 | every bullet's target is in range, and the highlighted bullet always exists |
| ReviewSlider.ActiveBullet | src/components/CustomerReviewsSlider.tsx:454-456 | the highlighted bullet: the index on mobile, its page of four otherwise; `ReviewSlider.BulletsKeepRange` proves it exists |
| ReviewSlider.BulletTarget | src/components/CustomerReviewsSlider.tsx:462-489 | where a bullet jumps: its card, or its page start clamped to the last page start; `ReviewSlider.BulletsKeepRange` proves it in range |
| ReviewSlider.LastBulletNotHighlighted | src/components/CustomerReviewsSlider.tsx:454-483 | as written, with ten cards on desktop the third bullet jumps to card 6 and the second bullet is highlighted |
| ReviewSlider.IntendedBulletHighlightsClicked | src/components/CustomerReviewsSlider.tsx:454-489 | corrected: the bullet clicked is the bullet highlighted, and the highlighted bullet always exists |
| ReviewSlider.ThresholdBounds | src/components/CustomerReviewsSlider.tsx:216-222 | eight pixels along an axis exceed the click threshold; anything exceeding it moved at least six along some axis |
| ReviewSlider.ExceedsThreshold | src/components/CustomerReviewsSlider.tsx:216-224 | the pointer has travelled at least 8 pixels, compared on squares; `ReviewSlider.ThresholdBounds` bounds it by the axes |
| ReviewSlider.DragGesture.constructor | src/components/CustomerReviewsSlider.tsx:47-51 | no drag, threshold not crossed, no document listeners |
| ReviewSlider.DragGesture.MouseDown | src/components/CustomerReviewsSlider.tsx:173-188 | a press stops any drag, records the press point, re-arms the threshold and attaches the listeners |
| ReviewSlider.DragGesture.MouseMove | src/components/CustomerReviewsSlider.tsx:214-236 | below the threshold nothing changes; the first move beyond it starts the drag |
| ReviewSlider.DragGesture.MouseUp | src/components/CustomerReviewsSlider.tsx:263-286 | release clears both flags, whether or not the press became a drag, and detaches the listeners |
| ReviewSlider.DragGesture.TouchStart | src/components/CustomerReviewsSlider.tsx:318-324 | a touch starts a drag |
| ReviewSlider.DragGesture.TouchEnd | src/components/CustomerReviewsSlider.tsx:336-338 | lifting the finger ends it |
| ReviewSlider.ClickIsNotDrag | src/components/CustomerReviewsSlider.tsx:216-228 | a press whose moves all stay inside the threshold never becomes a drag: no move sets the dragging flag, and afterwards the listeners are still attached with both flags clear and the press point kept, so the release takes the click branch |
| ClientReviews.NextIndex | src/components/ClientReviewsSection.tsx:50-55 | next stays in range and wraps from the last review to the first |
| ClientReviews.PreviousIndex | src/components/ClientReviewsSection.tsx:57-64 | previous stays in range and wraps from the first review to the last |
| ClientReviews.NextPreviousRoundTrip | src/components/ClientReviewsSection.tsx:53-62 | next and previous undo each other |
| ClientReviews.AdvanceWraps | src/components/ClientReviewsSection.tsx:53 | up to `n` nexts move forward by that many, wrapping once |
| ClientReviews.FullCycle | src/components/ClientReviewsSection.tsx:53 | `n` nexts come back to the starting review |
| ClientReviews.Carousel.constructor | src/components/ClientReviewsSection.tsx:45-47 | the carousel mounts on the first review, unlocked, over a non-empty list |
| ClientReviews.Carousel.ButtonsDisabled | src/components/ClientReviewsSection.tsx:180-202 | both arrows are disabled while a transition runs; `HandleNext` and `HandlePrevious` ignore a click then |
| ClientReviews.Carousel.Shown | src/components/ClientReviewsSection.tsx:87-162 | the review on screen is one of the reviews |
| ClientReviews.Carousel.HandleNext | src/components/ClientReviewsSection.tsx:50-55 | ignored while animating; otherwise locks and advances, wrapping |
| ClientReviews.Carousel.HandlePrevious | src/components/ClientReviewsSection.tsx:57-64 | ignored while animating; otherwise locks and goes back, wrapping |
| ClientReviews.Carousel.AnimationTimerFires | src/components/ClientReviewsSection.tsx:54 | the 600 ms timer releases the lock |
| ClientReviews.NextThenPrevious | src/components/ClientReviewsSection.tsx:50-64 | next, timer, previous shows the same review again |
| ClientReviews.CycleThrough | src/components/ClientReviewsSection.tsx:50-55 | pressing next once per review, waiting each time, returns to the start |
| HomePage.Home.constructor | src/pages/home/index.tsx:22-24 | the page mounts with no sticky header, no exit in progress and the video not loaded |
| HomePage.Home.Observe | src/pages/home/index.tsx:52-58 | the sticky header shows exactly while the watched header is out of view |
| HomePage.Home.StickyLinkClick | src/pages/home/index.tsx:84-99 | a click is intercepted iff the sticky header is shown and not exiting; then it exits and the navigation waits for the timer; otherwise nothing changes |
| HomePage.Home.LogoClick | src/pages/home/index.tsx:119-131 | the sticky logo follows the same rule towards `/` |
| HomePage.Home.ExitTimerFires | src/pages/home/index.tsx:94-97 | the exit timer navigates to the clicked path and ends the exit |
| HomePage.Home.VideoLoadedData | src/pages/home/index.tsx:289 | `loadeddata` marks the video loaded |
| HomePage.Home.VideoFallbackFires | src/pages/home/index.tsx:29-32 | the 5000 ms fallback marks the video loaded |
| HomePage.DoubleClickNavigatesOnce | src/pages/home/index.tsx:88-97 | of two clicks both handled against the current state, only the first is intercepted, and the page navigates to its path |
| HomePage.VideoStaysLoaded | src/pages/home/index.tsx:22-32 | once loaded, the video stays loaded through any sequence of observer, click, timer and video events, and the header invariant is kept |

## Left out

- The `fetch` to the form relay, `response.text()`, `JSON.parse` and the console diagnostics are I/O. Their result is the `Reply` input.
- For a body that parses to JSON `null`, reading `result.message` (non-OK response) or `result.success` (OK response) throws a `TypeError`. That error is caught like any other `Error`, so it is the `Rejected` case of `Reply`; it is not derived from the body.
- Relay `message`/`error` values that are not strings are not modelled. Falsy values are `""`.
- Both file inputs are commented out in the markup, so no operation selects a file. The model keeps the file field, clears it on success and covers a selected file in the payload lemmas. Resetting the file input element's DOM value is left out.
- LeadForm.Field: reads a key the record lacks as the empty string, where JavaScript would throw on `undefined.trim()`; every key the forms read is present from mount on (`LeadForm.Form.Valid` keeps `Conforms`), so that case is never reached.
- LeadForm.Form.HandleChange: accepts any field name, as `[name]: value` does. The declaration-order lemmas apply to names from the table, which are the only input names the forms render.
- The browser's value sanitisation of `type="email"` and `type="number"` inputs is not modelled: a browser strips leading and trailing ASCII white space from an e-mail input before `handleChange` sees it, so `LeadForm.PaddedEmailKeepsFormInvalid` is reachable in a browser only with other white space such as U+00A0.
- JavaScript strings are UTF-16 code-unit sequences. Here they are sequences of Unicode scalar values. The white-space set is ECMAScript's, with no case folding or normalisation.
- Routes.Resolve: router matching is exact path equality. Trailing slashes, case-insensitive matching and parameters are react-router behaviour and are not modelled.
- Routes.FunnelLinks: the list of link targets is copied from the pages' markup, with the lines cited in its comment. Only the Hire page's entries are tied to the members that produce them (`Hire.HireLinksListed`); the other pages are not modelled.
- The pages' progress values, the `Step` progress animation, framer-motion animations and the presentational components are not modelled.
- Gallery: image aspect ratios, `imagesReady`, content-height measurement, the intersection-observer bookkeeping and the expanded pixel height are not modelled. They are browser measurements and floating-point arithmetic. Heights are non-negative integers.
- Screenshots.Gallery.Resize: `maxHeight` is the `vh` number rather than the CSS string (`50vh`, `60vh`, `80vh`, `100vh`).
- Slider: these are DOM measurement and scrolling with floating-point pixels, and are not modelled:
  - the scroll handler's nearest-card search and `Math.round` index;
  - the effect that scrolls to the current index;
  - the ×1.5 drag scroll;
  - the Wistia player and the toggling of video pointer events.
- ReviewSlider.DragGesture.MouseMove: does not model the scrolling a move performs once dragging. It also omits the branch for a missing slider element, which is always mounted while its handlers run.
- ReviewSlider.DragGesture.MouseDown: treats the document listeners as one flag. A second press before a release attaches a second pair, but every pair acts on the same refs and every release handler clears both flags, so the flags behave the same.
- ReviewSlider.ExceedsThreshold: pointer coordinates are integers. The threshold test is `dx² + dy² ≥ 64`, which is equivalent to `sqrt(dx² + dy²) ≥ 8`.
- ReviewSlider.ArrowsKeepRange: switching between mobile and desktop does not clamp the index. The range lemmas hold for a fixed view mode only.
- ClientReviews.Carousel.HandleNext: reads the lock from the current state, and so does ClientReviews.Carousel.HandlePrevious. The component reads it from the render in which the click happened. Two clicks inside one render are not modelled.
- Timers are events with no durations: the 600 ms transition, the 600 ms sticky-header exit and the 5000 ms video fallback.
- HomePage.Home.StickyLinkClick: reads `showStickyHeader` and `isExitingStickyHeader` from the current state, and so do HomePage.Home.LogoClick and HomePage.DoubleClickNavigatesOnce. In the page the sticky header is removed inside `AnimatePresence` with a 0.3 s exit (src/pages/home/index.tsx lines 104-110), so it stays on screen rendered from its last render, whose click handlers (lines 121-131, 148-150, 159-161) still see the header shown and not exiting. A second click on the exiting header can pass the guard again and schedule a second `navigate`. That depends on framer-motion's exit behaviour, which is not part of this model.
- HomePage.DoubleClickNavigatesOnce: covers only clicks handled against the current state. A second click on the exiting header, handled by its last render, is not covered (see the line above).
- On the home page, the switch of the observed element between mobile and desktop on resize is not modelled. Neither is the unmounting of the page after navigation, nor the full page load performed by a sticky `<a href>` click that is not intercepted.

## Findings

| source | as written | input that shows it | evidently intended | confidence | as-written member | corrected member |
|---|---|---|---|---|---|---|
| src/components/DisqualifiedForm.tsx:397-403 | the banner (here and at QualifiedForm.tsx lines 324-331) shows `status.split(':')[1].trim()`, only the text up to the message's first colon | a non-OK response with no `message`, status 404: status `error: HTTP error! status: 404`, banner `HTTP error! status` | the whole message after the `error:` prefix, trimmed | medium; not executed | LeadForm.HttpErrorBanner | LeadForm.IntendedBannerShowsMessage |
| src/components/Screenshots.tsx:92-94 | preload completion replaces `loadedImages` with `{0..min(6,n)-1}` | image 6's `onLoad` (lines 281-290) fires before the last preloaded image: `{6}` becomes `{0,…,5}` and 6 is lost | completion adds the preloaded indices, so the set only grows | low; not executed | Screenshots.PreloadMarkDropsLoaded | Screenshots.PreloadMark |
| src/components/CustomerReviewsSlider.tsx:454-483 | a desktop bullet jumps to `min(4k, max(0, n-4))` but the active bullet is `floor(index/4)` | ten cards on desktop: bullet 3 (k = 2) jumps to index 6 and bullet 2 is highlighted | the clicked bullet is highlighted | medium; not executed | ReviewSlider.LastBulletNotHighlighted | ReviewSlider.IntendedBulletHighlightsClicked |
