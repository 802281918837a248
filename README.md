# Bock & Lintott gallery: a verified model

This project models the client-side gallery of the Bock & Lintott website
(`js/main.js`). It covers five parts:

- the shared slide index `currentSlide`, which `goToSlide` wraps into range with JavaScript's truncating `%`;
- the carousel rendering: the track transform and exactly one active indicator;
- the lightbox, which reads and writes the same index;
- the auto-advance interval and its cancel-then-start discipline;
- the triggers that drive them: previous/next buttons, indicator clicks, touch swipes, the two keydown listeners, resize and page visibility.

It also models the two stand-alone routines the gallery and the contact form
rely on: discovery of the gallery images and contact-form validation.

Modules:

- `Navigation` (`navigation.dfy`): JavaScript's `%` (`JsRem`), the wrap-around formula of `goToSlide` (`Normalize`) and its agreement with the Euclidean residue, the preload index, and the swipe classifier.
- `Discovery` (`discovery.dfy`): the fifteen candidate names, `String.prototype.replace` for the alt label, the probe loop `DiscoverGalleryImages` and its specification `Found`, and the three fallback entries. The HEAD request is an injected predicate on the URL. It is true when the response is ok. A request that throws reads as false, as the script's `catch` does.
- `ContactForm` (`contact_form.dfy`): ECMAScript whitespace, `trim`, the e-mail pattern `^[^\s@]+@[^\s@]+\.[^\s@]+$` and a structural check proved equivalent to it, and `validateForm`, which returns a map from field to message.
- `Gallery` (`gallery.dfy`): class `Site`. Its fields are the script's state: `currentSlide`, `isLightboxOpen`, `slideInterval`, the touch coordinates, and the DOM state the script writes. One method exists per handler. The browser's interval table is modelled as the set of running handles. `Valid()` is the invariant every handler keeps: the index is in range, one indicator is active, and at most the held interval runs. `Synced()` says the open lightbox shows `galleryImages[currentSlide]`.
- `Wrappers` (`wrappers.dfy`): `Option`.

Where the code differs from the behaviour one might expect, the model follows the code:

- `goToSlide` never refreshes the lightbox. The callers that want a refresh call `updateLightboxImage` themselves.
- An indicator click does not restart the auto-advance countdown.
- `openLightbox` stores its index as given and does not re-render the carousel.
- The lightbox's own navigation never restarts the countdown.

## Model

| member | source | states |
|---|---|---|
| Navigation.JsRem | js/main.js:253 | JavaScript `%`: a non-negative dividend gives a remainder in [0, n), a negative one a remainder in (-n, 0] |
| Navigation.JsRemCongruent | js/main.js:253 | the truncated remainder equals the Euclidean one or the Euclidean one minus n |
| Navigation.Normalize | js/main.js:253 | `((i % n) + n) % n` always lands in [0, n) |
| Navigation.NormalizeIsEuclideanMod | js/main.js:252-253 | for every integer i and n > 0 the JavaScript formula equals the mathematical i mod n |
| Navigation.NormalizeKeepsValidIndex | js/main.js:559-562 | re-normalising an index already in range leaves it unchanged (the resize re-snap) |
| Navigation.AdvanceThenRetreat | js/main.js:196-204 | next then previous returns to the starting slide, wrap-around included |
| Navigation.RetreatThenAdvance | js/main.js:196-204 | previous then next returns to the starting slide, wrap-around included |
| Navigation.PreloadIndex | js/main.js:566-567 | the index preloadNextImage loads: there is one iff the gallery has more than one image, and it then lies in range; `PreloadIsNextSlide` proves it is the slide the next advance shows |
| Navigation.PreloadIsNextSlide | js/main.js:565-571 | the preload index exists iff there are at least two images and is then the slide the next advance shows |
| Navigation.SwipeIntent | js/main.js:219-231 | advance iff startX - endX > 50, retreat iff endX - startX > 50, nothing iff the move is at most 50 either way (50 itself ignored) |
| Discovery.ImagePath | js/main.js:138-141 | the URL a candidate is both probed at and served from: `./images/` followed by the file name |
| Discovery.ReplaceFirst | js/main.js:142 | `String.prototype.replace` with a string pattern, without `$` expansion in the replacement (none occurs here); `ReplaceFirstNoMatch` and `ReplaceFirstAtFirstMatch` characterise it |
| Discovery.ReplaceFirstNoMatch | js/main.js:142 | `replace` with a pattern that does not occur returns the string unchanged |
| Discovery.ReplaceFirstAtFirstMatch | js/main.js:142 | `replace` substitutes the leftmost occurrence only and keeps everything around it |
| Discovery.CandidatesFollowNamingConvention | js/main.js:128-132 | the fifteen candidates are image_NN.jpg with NN the zero-padded 1-based probe position |
| Discovery.Label | js/main.js:142 | the two chained replaces that turn `image_NN.jpg` into `Bild NN`; `FoundAltNamesPosition` evaluates them for every candidate |
| Discovery.FoundImage | js/main.js:140-143 | the entry pushed for a candidate whose probe succeeded: its URL and the fixed alt prefix followed by its label |
| Discovery.FoundAltNamesPosition | js/main.js:140-143 | a found candidate's src is ./images/<filename> and its alt is the fixed prefix plus `Bild NN` for its position |
| Discovery.Found | js/main.js:136-149 | the loop's result as a definition: the entries of the candidates whose probe succeeds, in probe order; `FoundMembers`, `FoundEmptyIff` and `FoundAppend` characterise it, and it is the invariant of the loop in `DiscoverGalleryImages` |
| Discovery.FoundAppend | js/main.js:136-149 | probing two runs of candidates in sequence finds the first run's images first: probe order is kept |
| Discovery.FoundMembers | js/main.js:136-149 | at most one entry per candidate; an entry is found iff some candidate's probe succeeded and it is that candidate's entry |
| Discovery.FoundEmptyIff | js/main.js:136-152 | nothing is found iff every probe fails |
| Discovery.FoundIsNotFallback | js/main.js:151-158 | no set of found entries coincides with the fallback entries |
| Discovery.DiscoverGalleryImages | js/main.js:126-161 | the result is never empty and has at most 15 entries; it is the fallback iff every probe failed, and otherwise exactly the found candidates in probe order |
| ContactForm.Trim | js/main.js:458-460 | `trim`: leading and trailing ECMAScript whitespace removed; `TrimStartStrips`, `TrimEndStrips` and `TrimIsIdempotent` characterise it |
| ContactForm.TrimStartStrips | js/main.js:458-460 | trimming the start drops exactly the leading whitespace: all dropped characters are whitespace and the kept suffix does not start with any |
| ContactForm.TrimEndStrips | js/main.js:458-460 | trimming the end drops exactly the trailing whitespace |
| ContactForm.TrimKeepsTrimmed | js/main.js:458-460 | a string with no whitespace at either end is unchanged by `trim` |
| ContactForm.TrimEmptyIff | js/main.js:463-473 | a field is blank after `trim` iff it consists of whitespace only |
| ContactForm.TrimIsIdempotent | js/main.js:458-460 | the trimmed string has no whitespace at either end and trimming it again changes nothing |
| ContactForm.MatchesEmailPattern | js/main.js:469 | the regular expression `^[^\s@]+@[^\s@]+\.[^\s@]+$` as a split: a non-empty run without whitespace or `@`, an `@`, another such run, a `.`, and a last such run |
| ContactForm.IsValidEmail | js/main.js:469 | the check `validateForm` uses: no whitespace, exactly one `@` after a non-empty local part, and a `.` strictly inside the domain; `EmailCheckMatchesPattern` proves it accepts exactly what the pattern matches |
| ContactForm.ValidEmailMatchesPattern | js/main.js:469 | every string the structural check accepts matches the e-mail pattern |
| ContactForm.PatternMatchIsValidEmail | js/main.js:469 | every string the e-mail pattern matches passes the structural check |
| ContactForm.EmailCheckMatchesPattern | js/main.js:469 | the structural check (no whitespace, one `@` after a non-empty local part, an inner `.` in the domain) accepts exactly the pattern's strings |
| ContactForm.Consented | js/main.js:479 | the checkbox test `!consent` fails for a missing value and for the empty string alike, so consent is given iff a non-empty value is present |
| ContactForm.ValidateForm | js/main.js:455-484 | each field is judged on its own: name errs iff blank; email errs iff the trimmed value fails the pattern, with the required message when blank and the invalid one otherwise; message errs iff shorter than 10 after trim, required vs. too-short likewise; consent errs iff unchecked; no errors iff all four pass |
| ContactForm.EveryFieldReported | js/main.js:455-484 | an empty name, `bad` e-mail, `short` message and no consent yield all four errors with their messages |
| ContactForm.WellFormedFormAccepted | js/main.js:455-484 | a filled-in name, a well-formed address, a 15-character message and ticked consent yield no errors |
| Gallery.Site.AtMostOneInterval | js/main.js:266-278 | under the invariant no two auto-advance intervals run together |
| Gallery.Site.constructor | js/main.js:113-121 | after discovery the gallery starts on slide 0 with only the first indicator active, the lightbox closed and exactly one interval running |
| Gallery.Site.GoToSlide | js/main.js:252-261 | any integer index becomes index mod N; the track is shifted to that slide and exactly that indicator is active |
| Gallery.Site.StartAutoSlide | js/main.js:266-270 | a new interval runs and its handle is held, the previous index and rendering untouched |
| Gallery.Site.ClearSlideInterval | js/main.js:276 | clearing the held handle leaves no interval running |
| Gallery.Site.ResetAutoSlide | js/main.js:275-278 | after a reset exactly one interval runs, the newly started one |
| Gallery.Site.VisibilityChange | js/main.js:550-556 | a hidden page runs no interval; a page shown again runs exactly one, freshly started |
| Gallery.Site.Tick | js/main.js:267-269 | an interval firing advances the index by one, wrapped, and from any state leaves an open lightbox showing the new current slide (corrected callback) |
| Gallery.Site.TickAsWritten | js/main.js:267-269 | the callback as written advances the index by one, wrapped, and leaves the lightbox image alone |
| Gallery.Site.PrevClick | js/main.js:196-199 | retreats by one, wrapped, re-renders, and leaves exactly one fresh interval |
| Gallery.Site.NextClick | js/main.js:201-204 | advances by one, wrapped, re-renders, and leaves exactly one fresh interval |
| Gallery.Site.IndicatorClick | js/main.js:184 | jumps to the clicked indicator's slide and leaves the timer untouched |
| Gallery.Site.Resize | js/main.js:559-562 | re-rendering keeps the index and shows it |
| Gallery.Site.TouchStart | js/main.js:210-212 | records the start coordinate |
| Gallery.Site.TouchEnd | js/main.js:214-217 | records the end coordinate and acts as the swipe rule says |
| Gallery.Site.HandleSwipe | js/main.js:219-231 | a move of more than 50 px leftward advances and rightward retreats, both restarting the countdown; a move of 50 px or less changes neither index, rendering nor timer |
| Gallery.Site.CarouselKeyDown | js/main.js:234-246 | with the lightbox closed and focus in the gallery, ArrowLeft/ArrowRight retreat/advance and restart the countdown; with the lightbox open it does nothing |
| Gallery.Site.LightboxKeyDown | js/main.js:362-376 | from any state, lightbox image in step or not: with the lightbox open, Escape closes it and changes nothing else, the arrows step the index wrapped, re-render, and put the new slide's image in the lightbox, and other keys change nothing; with it closed nothing changes; an in-step lightbox stays in step |
| Gallery.Site.KeyDown | js/main.js:234-376 | the carousel listener (234-246) and the lightbox listener (362-376) in registration order, from any state: with the lightbox open the carousel listener does nothing and the lightbox listener's full contract holds, the countdown untouched; with it closed the arrows move and re-render the carousel with a fresh countdown when focus is in the gallery, and otherwise nothing changes |
| Gallery.Site.UpdateLightboxImage | js/main.js:396-400 | the lightbox shows `galleryImages[currentSlide]` |
| Gallery.Site.OpenLightbox | js/main.js:379-388 | the index becomes the clicked slide as given, the lightbox opens showing that image, the carousel is not re-rendered |
| Gallery.Site.CloseLightbox | js/main.js:390-394 | the lightbox closes and the index is unchanged |
| Gallery.Site.LightboxPrev | js/main.js:347-350 | retreats by one, wrapped, and shows the new slide in the lightbox; the timer is untouched |
| Gallery.Site.LightboxNext | js/main.js:351-354 | advances by one, wrapped, and shows the new slide in the lightbox; the timer is untouched |
| Gallery.Site.LightboxClick | js/main.js:356-360 | from any state, a click on the backdrop closes the lightbox and any other click leaves it; an in-step lightbox stays in step |
| Gallery.Site.PreloadSource | js/main.js:565-571 | with two or more images, the source of the image the next advance shows; none otherwise |
| Gallery.NavigationScenario | js/main.js:184-400 | three slides from 0: a 60 px left swipe gives 1, indicator 0 gives 0, ArrowLeft wraps to 2, the lightbox opens on image 2, and ArrowRight in it wraps to 0 and shows image 0 |
| Gallery.TickWhileLightboxOpenAsWritten | js/main.js:267-269 | with the callback as written, a tick while the lightbox shows image 0 moves the index to 1 and the lightbox keeps showing image 0; the next ArrowRight then moves the lightbox from image 0 to image 2 |
| Gallery.TickWhileLightboxOpen | js/main.js:267-269 | with the corrected callback, the lightbox follows the tick to image 1 |

## Findings

| source | as written | input that shows it | evidently intended | confidence | as-written member | corrected member |
|---|---|---|---|---|---|---|
| js/main.js:267-269 | the auto-advance callback calls `goToSlide` only, and the interval keeps running while the lightbox is open, so the lightbox image stops matching `currentSlide` | three images, `openLightbox(0)`, one interval firing: `currentSlide` is 1 while the lightbox still shows image 0; the next ArrowRight then jumps to image 2 | every other lightbox path pairs `goToSlide` with `updateLightboxImage` (347-354, 366-373), so an open lightbox should show the current slide after a tick too | medium, not executed | Gallery.TickWhileLightboxOpenAsWritten | Gallery.Site.Tick |

## Left out

- DOM writes are kept only as abstract state: the track transform as the slide it was computed from, the indicators' `active` flags, and the lightbox src/alt. This leaves out class toggles, style strings, `innerHTML`, building the slide elements, focus calls and `document.body.style.overflow`.
- `fetch` and the `async`/`await` sequencing of discovery are replaced by the injected probe predicate.
- Real timing is not modelled: `setInterval`/`clearInterval` delays, the 5000 ms interval, and the 1000 ms and 5000 ms form-submission timeouts. An interval is a handle in the set of running intervals.
- Events that arrive while discovery is still awaiting its probes are not modelled; the model starts from the state `initializeGallery` leaves. In the script, the visibility and resize listeners are attached before discovery finishes. A page hidden and shown again during discovery starts an interval that `initializeGallery`'s own `startAutoSlide` does not cancel, so two intervals then run. Any tick or resize before discovery ends computes with an empty gallery and stores NaN in `currentSlide`. Every later `goToSlide(currentSlide ± 1)` then stays NaN until an indicator click (js/main.js:184) or `openLightbox` (js/main.js:380) assigns a number. This is a defect of the script that the model, which has no NaN, does not capture.
- Gallery.Site.StartAutoSlide: requires that no interval is running. That holds at both call sites the model has: initialisation after discovery, and after the clear in `resetAutoSlide`.
- Gallery.Site.Tick: requires that some interval is running, since only a running interval fires.
- Gallery.Site.GoToSlide: requires a non-empty gallery. With none, the script computes NaN. Discovery never returns an empty list.
- Gallery.Site.OpenLightbox: requires an index in range. Its only caller is the click handler of slide `index`.
- Gallery.Site.PrevClick, Gallery.Site.NextClick, Gallery.Site.IndicatorClick, Gallery.Site.HandleSwipe: these carousel triggers do not promise `Synced()`. Fired while the lightbox is open, they move the index without updating the lightbox image, a second path to the mismatch under "## Findings". Whether they can fire then depends on page layout and focus, which the script does not control: `openLightbox` focuses the close button but sets up no focus trap (js/main.js:386-387), so Tab may reach the previous/next buttons. The model makes no claim either way.
- Touch coordinates are integer pixels; browsers report fractional `clientX` values.
- Dafny characters are Unicode scalar values, but JavaScript's `length` counts UTF-16 code units. A message containing characters outside the Basic Multilingual Plane is therefore longer in the script than in the model. The whitespace set is ECMAScript's (WhiteSpace and LineTerminator, with the Unicode Zs characters listed explicitly).
- `preloadNextImage` is modelled only as the source it would load. The script defines it but never calls it, and creating the `Image` object is a network side effect.
- These parts are page glue without state worth proving: the parallax effect (floating point), the header scroll class, fade-in observers, smooth scrolling, the mobile menu, the about modal, and the Escape handlers of the last two.
- Also left out: `handleFormSubmit` (simulated submission, `alert`, `console.error`), `displayFormErrors`/`clearFormErrors` styling, the `window.BockLintott` debug export, and the unused `CONFIG` entries.
- `formData.get` on a missing text field returns null and `trim` would throw. The form always has these fields, so the model takes them as strings.
