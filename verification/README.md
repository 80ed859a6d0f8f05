# DevMatcha frontend: card stack, feed and forms, in Dafny

This project models the pure logic of a single-page client for a developer
"matching" app. Five pieces are modelled as total functions over immutable
values:

- **The swipeable card stack** (`SwipeCards`). It is a sequence of profiles whose last element is the front card.
  - When a drag ends, the horizontal offset is classified against a threshold of 100.
  - A drag beyond the threshold sends one request: `interested` to the right, `ignored` to the left.
  - The same drag evicts every card with that `_id`, keeping the rest in order.
  - The Ignore and Interested buttons send `ignore` / `interested` and evict nothing.
  - Settling a request never touches the stack; a failure is only logged.
  - A new `user` prop replaces the stack wholesale.
- **The `feed` store slice** (`FeedSlice`). `addFeed` replaces the nullable list. `removeUserFromFeed` filters the list by the `id` field, which is not the `_id` field the stack uses.
- **The feed page** (`Feed`). It fetches only while the feed is null. It shows one of three views: loading, "No new users found!", or the card stack.
- **The signup form** (`SignupRules`, `Signup`). This covers the email pattern, the five password rules, and `validateField` as a transformer of the error map. It also covers the normalised request payload and the failure-message mapping.
- **The login form** (`Login`). This covers the payload, the failure-message mapping, and the field handlers that clear errors as the user types.

Supporting modules:
- `Optional`: `null`/value.
- `Seqs`: `Array.prototype.filter` and its laws.
- `Text`: `trim` with ECMAScript's whitespace set, ASCII classes, `toLowerCase`, `indexOf`.
- `Http`: the error-response record and string truthiness.
- `Profiles`: the profile record, with `_id` and `id` kept as separate fields.

The stack keeps no pending-removal set, never rolls back an eviction and does not deduplicate requests:
- A failed request leaves the card evicted (`SettlementNeverRollsBack`).
- A repeated drag end re-sends its request (`RepeatedDragResendsButKeepsStack`).
- A `user` change replaces the stack with the new list, so evicted cards it still contains come back (`ReloadDiscardsEvictions`).

## Model

| member | source | states |
|---|---|---|
| SwipeCards.Classify | src/components/SwipeCards.jsx:95-97 | an offset within [-100, 100] decides nothing, above 100 is a right swipe, below -100 a left swipe |
| SwipeCards.Evict | src/components/SwipeCards.jsx:98 | a card survives exactly when it was in the stack and its `_id` differs from the swiped one; the stack never grows |
| SwipeCards.HandleDragEnd | src/components/SwipeCards.jsx:91-100 | in edit mode or within the threshold nothing is sent and the stack is unchanged; beyond it one request for the card's `_id` with status `interested`/`ignored`, and the stack is the eviction of that `_id` |
| SwipeCards.RenderDeck | src/components/SwipeCards.jsx:16-28 | (with `isFront` at line 61, the tilt at line 65, `drag` at line 119 and the buttons at line 170) one view per card in stack order, the "All done!" panel exactly for an empty stack; the last card is untilted and draggable outside edit mode; with distinct `_id`s it is the only untilted card and, outside edit mode, the only draggable one; a card tilts 0 exactly when it shares the front's `_id`, and otherwise +3 at an odd index and -3 at an even one; in edit mode nothing is draggable or shows buttons; a card is draggable, and shows the Ignore and Interested buttons, exactly when it shares the front's `_id` outside edit mode |
| SwipeCards.TiltAlternates | src/components/SwipeCards.jsx:65 | with distinct `_id`s, every card below the front is tilted +3 at an odd index and -3 at an even one, so neighbours lean opposite ways |
| SwipeCards.EvictPreservesOrder | src/components/SwipeCards.jsx:98 | eviction distributes over concatenation, so survivors keep their relative order |
| SwipeCards.EvictAbsentIsNoop | src/components/SwipeCards.jsx:98 | evicting an `_id` no card has returns the stack unchanged |
| SwipeCards.EvictIdempotent | src/components/SwipeCards.jsx:98 | evicting twice equals evicting once |
| SwipeCards.EvictShrinksIffPresent | src/components/SwipeCards.jsx:98 | the stack gets shorter exactly when some card has the evicted `_id` |
| SwipeCards.EvictFrontRevealsNext | src/components/SwipeCards.jsx:61 | with distinct `_id`s, evicting the front (last) card drops exactly it, the former second-to-last card becomes the front, and a one-card stack becomes the exhausted panel |
| SwipeCards.DecisiveDragEvicts | src/components/SwipeCards.jsx:95-98 | a decisive drag sends exactly one request for the card's `_id` with the direction's status, and leaves the stack minus that `_id`, no card with it remaining |
| SwipeCards.RepeatedDragResendsButKeepsStack | src/components/SwipeCards.jsx:91-99 | a second decisive drag end for an evicted card leaves the stack as is but sends the same request again |
| SwipeCards.MountShowsUser | src/components/SwipeCards.jsx:8 | a freshly mounted stack renders the "All done!" panel exactly when `user` is empty, otherwise `user`'s `_id`s in order with its last entry untilted; nothing is sent or logged yet |
| SwipeCards.Step | src/components/SwipeCards.jsx:73-100 | every event keeps edit mode, appends at most one request, and changes the cards only by a `user` change (replacement) or by evicting the `_id`s a decisive drag on an enabled card names, for which the request is the one appended; a settled request changes neither cards nor requests; a drag end that evicts nothing changes nothing, a decisive one appends `interested` (right) or `ignored` (left) for the dragged `_id`, and only a settled request can touch the log; a `user` change only replaces the cards, and a button press appends `ignore` / `interested` for the pressed card only when it is the front card outside edit mode, otherwise changing nothing |
| SwipeCards.ButtonsSendWithoutEvicting | src/components/SwipeCards.jsx:170-183 | the front card's buttons append `ignore` / `interested` for its `_id` and leave the stack unchanged; `ignore` differs from the drag's `ignored` |
| SwipeCards.SettlementNeverRollsBack | src/components/SwipeCards.jsx:73-84 | a delivered or failed request leaves the stack alone; a failure is only appended to the log |
| SwipeCards.ReloadDiscardsEvictions | src/components/SwipeCards.jsx:10-12 | after any events, a `user` change makes the stack exactly the new list |
| SwipeCards.RunKeepsMountedOrder | src/components/SwipeCards.jsx:91-100 | without `user` changes, the stack is always the mounted list minus the swiped `_id`s in original order, earlier requests are kept, and each swiped `_id` has a request sent for it |
| FeedSlice.RemoveUserFromFeed | src/utils/feedSlice.js:10-14 | a null feed stays null; otherwise exactly the entries whose `id` differs from the payload survive, and the list never grows |
| FeedSlice.AddFeedForgetsPriorState | src/utils/feedSlice.js:7-9 | `addFeed` yields its payload whatever the prior state |
| FeedSlice.RemoveIdempotent | src/utils/feedSlice.js:12 | removing the same `id` twice equals removing it once |
| FeedSlice.RemovePreservesOrder | src/utils/feedSlice.js:12 | removal distributes over concatenation, so the survivors keep their order |
| FeedSlice.RemoveAbsentIsNoop | src/utils/feedSlice.js:12 | when no entry has the payload as `id`, the list is returned unchanged |
| FeedSlice.RemoveShrinksIffPresent | src/utils/feedSlice.js:12 | the list gets shorter exactly when some entry's `id` equals the payload |
| FeedSlice.MatchesIdNotUid | src/utils/feedSlice.js:12 | in any list, an entry whose `_id` equals the payload but whose `id` does not is kept, and an entry whose `id` equals the payload is dropped whatever its `_id` |
| Feed.SelectView | src/components/Feed.jsx:29-52 | null feed gives the loading view, an empty list the "No new users found!" view, any other list the card stack with the list unchanged |
| Feed.GetFeed | src/components/Feed.jsx:14-24 | the server is asked exactly when the feed is null; a non-null feed is left as is; a success stores the answer, a failure changes nothing |
| Feed.InitialFeedLoads | src/utils/feedSlice.js:5 | the store starts null, so the page shows loading and fetches |
| Feed.ListedFeedNeverRefetched | src/components/Feed.jsx:15 | once a list (even empty) is stored, the effect never fetches again and the page is no longer loading |
| Feed.FailedFetchKeepsLoading | src/components/Feed.jsx:22-24 | a failed fetch leaves the page in the loading view |
| Feed.FeedMountsWholeList | src/components/Feed.jsx:46-52 | the mounted card stack holds exactly the feed list and its front card is the feed's last entry |
| SignupRules.EmailTestMatchesRegex | src/components/Signup.jsx:20 | the first-`@`/last-`.` check accepts exactly the strings that split as `[a-zA-Z0-9._%+-]+ @ [a-zA-Z0-9.-]+ . [a-zA-Z]{2,}` |
| SignupRules.GetPasswordRules | src/components/Signup.jsx:23-29 | each rule flag holds exactly when the password has length at least 8 or contains an upper-case letter, a lower-case letter, a digit, or one of ``!@#$%^&*(),.?":{}|<>`` respectively |
| SignupRules.PasswordValidIffAllRules | src/components/Signup.jsx:32-33 | a password is valid iff all five rules hold; a valid password is non-empty |
| SignupRules.PasswordValidityIsMonotone | src/components/Signup.jsx:23-33 | appending characters to a valid password keeps it valid |
| SignupRules.NoUpperCaseIsInvalid | src/components/Signup.jsx:25 | any password with no upper-case ASCII letter is rejected, whatever its length |
| Signup.NameErrorNoneIff | src/components/Signup.jsx:40-50 | a name field has no error exactly when its trimmed value has at least 4 characters, all ASCII letters or whitespace |
| Signup.EmailErrorNoneIff | src/components/Signup.jsx:64-72 | the email field has no error exactly when its trimmed value matches the email pattern |
| Signup.ValidateField | src/components/Signup.jsx:36-89 | only the key `field` changes; an unknown field leaves the map equal; a name or email key is absent exactly when the trimmed value is acceptable; the password key is absent exactly when the value is non-empty |
| Signup.NameRulePriority | src/components/Signup.jsx:40-62 | for either name field, an all-whitespace value is "required", a trimmed length of 1 to 3 is "at least 4 characters" whatever its characters, and only a longer value with a non-letter is "only letters" |
| Signup.EmailRulePriority | src/components/Signup.jsx:64-72 | an all-whitespace email is "required"; any other value not matching the pattern is "valid email" |
| Signup.ValidateFieldIdempotent | src/components/Signup.jsx:36-89 | validating the same field and value again changes nothing |
| Signup.ValidateFieldForgetsOldEntry | src/components/Signup.jsx:36-89 | a known field's resulting entry depends only on the value, not on the map's earlier contents |
| Signup.PasswordStrengthNeverReported | src/components/Signup.jsx:74-82 | as written, the only password error ever recorded is "required" |
| Signup.WeakPasswordAccepted | src/components/Signup.jsx:77 | the invalid password "a" leaves no password error |
| Signup.ValidateFieldIntended | src/components/Signup.jsx:74-82 | with the call restored, the password has no error exactly when it is valid, an empty one gets "required", a non-empty invalid one gets "does not meet requirements", and other fields behave as in `ValidateField` |
| Signup.SignupPayloadOf | src/components/Signup.jsx:118-123 | the names are trimmed slices of the input amid whitespace, the email is, character by character, the lower-cased trim of the input and so has no upper-case ASCII letter, and the password is sent verbatim |
| Signup.SignupPayloadIsNormalised | src/components/Signup.jsx:118-123 | normalising a payload a second time gives it back unchanged |
| Signup.SignupErrorMessage | src/components/Signup.jsx:128-140 | the message is never empty; a truthy server `message` is shown as is; without a response the generic message is shown |
| Signup.SignupStatusMessages | src/components/Signup.jsx:130-140 | without a truthy server message (absent or empty), 400, 409, 500 and above and everything else map to their four messages in that priority, the `error` field is ignored, and a truthy message beats every status |
| Login.ServerMessage | src/components/Login.jsx:43 | the server message is the truthy `message`, else the truthy `error`, else absent, and is never empty |
| Login.LoginErrorMessage | src/components/Login.jsx:40-64 | never empty; no response gives the network message if a request was made and the unexpected-error message otherwise; 404 and 500 give fixed messages; any other status shows the server message when there is one |
| Login.LoginFallbackMessages | src/components/Login.jsx:45-57 | with no server message, 400 gives "Invalid email or password" and any status other than 400/404/500 the generic failure; with a response, the request flag is irrelevant |
| Login.FixedStatusesIgnoreServerMessage | src/components/Login.jsx:49-54 | for 404 and 500 the message does not depend on the body |
| Login.BeginLogin | src/components/Login.jsx:18-32 | the API error is cleared and loading starts before the request; the email is sent as a trimmed slice, the password verbatim |
| Login.PresetPasswordIsValid | src/components/Login.jsx:10 | the login form's preset password satisfies the signup form's five password rules |
| Login.BeginLoginIsStable | src/components/Login.jsx:25-28 | the email sent is already trimmed: logging in again with it sends the same payload |
| Login.FinishLogin | src/components/Login.jsx:36-67 | loading stops, fields and errors are kept, and a failure shows its non-empty mapped message |
| Login.SuccessfulLoginShowsNoError | src/components/Login.jsx:20 | a successful login shows no API error whatever was shown before |
| Login.ClearFieldError | src/components/Login.jsx:73-75 | only the named entry can change; it stays present or absent as before, and if present it becomes "" |
| Login.HandleEmailChange | src/components/Login.jsx:71-77 | the email takes the typed value, the email's error becomes "" if it existed, other errors and the password are untouched, and the API error is "" |
| Login.HandlePasswordChange | src/components/Login.jsx:79-85 | the same for the password field |
| Login.FieldHandlersIdempotent | src/components/Login.jsx:71-85 | typing the same value twice equals typing it once |
| Login.TypingAfterFailureClearsMessage | src/components/Login.jsx:71-85 | after a failed login shows a message, typing in either field clears it |

## Findings

| source | as written | input that shows it | evidently intended | confidence | as-written member | corrected member |
|---|---|---|---|---|---|---|
| src/components/Signup.jsx:77 | `!isPasswordValid` negates the function object, which is always truthy, so the "does not meet requirements" branch never runs | the password `a`: non-empty and invalid, yet its error is deleted | `!isPasswordValid(value)` | high, not executed | Signup.WeakPasswordAccepted | Signup.ValidateFieldIntended |

`Signup.ValidateField` keeps the as-written behaviour, because it is what users see. `Signup.ValidateFieldIntended` is the corrected transformer. The same uncalled function object appears in `validateForm` (src/components/Signup.jsx:102), where it is always truthy, and negated in the submit button's `disabled` condition (src/components/Signup.jsx:550-551), where it is always false; neither is modelled (see below).

## Left out

- The `console.log(err)` calls of a failed feed fetch (src/components/Feed.jsx:23), login (src/components/Login.jsx:37) and signup (src/components/Signup.jsx:129) are not modelled: they have no visible effect. Only the card stack's failure log is kept, as `errorLog`.
- HTTP calls (axios) and `BASE_URL` are not modelled. A request is the value `(status, userId)` it would carry, and its settlement is a separate event. src/utils/constants is not part of this model.
- Framer Motion's rotation and opacity interpolations (src/components/SwipeCards.jsx:67-71) are left out: they are floating-point with library-defined clamping. The drop shadow and scale are left out too, as is the debug `console.log(x.get())` at src/components/SwipeCards.jsx:59. The failure log at src/components/SwipeCards.jsx:82 is modelled as the stack's `errorLog`.
- SwipeCards.Classify: the source's drag offset is a floating-point pixel value; the model takes whole numbers, so fractional offsets are not represented.
- React scheduling, batching and effect dependencies are not modelled: when an effect re-runs, and the state of a feed fetch that settles after the feed changed.
- `validateForm` (src/components/Signup.jsx:91-105) and the submit button's `disabled` condition are not modelled: they read a stale `errors` closure, whose value depends on React's render timing.
- The signup field change handlers (src/components/Signup.jsx:146-172) are not modelled: they only compose `setApiError("")` with `validateField`. The surrounding flow of `handleSignup` (loading flag, `addUser`, navigation) is also out; only its payload and failure message are modelled.
- After a successful login, `addUser` and navigation are out of scope (store and router wiring).
- `addFeed` with an `undefined` payload is not modelled: the store library's treatment of an `undefined` return is library behaviour. The payload is a list or null.
- `trim` and `\s` use ECMAScript's full whitespace set. `toLowerCase` is modelled for ASCII letters only, and a string's length is counted in Unicode scalar values, not UTF-16 code units.
- The store wiring, routing, profile editing, chat, connections and requests pages are not part of this model.
