# JappyReader core, modelled in Dafny

JappyReader is a React Native point-of-sale app for redeeming gift cards.
The app opens straight on the redemption screen. The cashier types an
amount, scans the card's QR code, and the app posts a redemption to the
gift-card service, then offers OK, Retry or Cancel depending on the answer.
The repository also holds an authentication service and context. They sign
in against an identity provider and keep the session in the device's
key-value storage under four keys. App.js does not put a sign-in step in
front of the redemption screen.

This project models two pieces of that app as pure functions over immutable
records:

- **Session lifecycle.** The authentication service does sign-in, sign-out, the
  expiry check and the `Bearer` header, over storage modelled as
  `map<string, string>`. The authentication context is the
  `user` / `isAuthenticated` / `loading` state machine built on top of it.
- **Redemption workflow.** Covers the amount field's cleaning and validation,
  the QR scanner's single-flight lock, the gift-card client's request and
  result mapping, receipt numbers, and the redemption screen's state machine.
  The screen's alert dialogs are part of the state and their buttons are events.

The clock, the random draw, the identity provider's answer, the gift-card
service's reply and the storage failures are all parameters. Every handler is
one atomic step.

Modules follow the source files:

| module | file | models |
|---|---|---|
| `Wrappers` | wrappers.dfy | `Option` |
| `Text` | text.dfy | `toString`, `parseInt`, `trim`, `split('@')[0]`, `slice(-n)`, `padStart`, truthiness |
| `Storage` | storage.dfy | the key-value store; a run of `setItem`/`removeItem` calls with an optional failing call |
| `UserCodec` | user_codec.dfy | the stored user record and an injective text encoding standing in for JSON |
| `AuthService` | auth_service.dfy | src/services/authService.js |
| `AuthContext` | auth_context.dfy | src/context/AuthContext.js |
| `QrScanner` | qr_scanner.dfy | `handleBarcodeScanned` in src/components/QRScanner.js |
| `AmountInput` | amount_input.dfy | `handleAmountChange` / `handleSubmit` in src/components/AmountInput.js |
| `GiftCardApi` | api.dfy | src/services/api.js |
| `Merchant` | merchant.dfy | src/config/merchant.js |
| `RedeemScreen` | redeem_screen.dfy | src/screens/RedeemScreen.js |

Storage failures are a `Fault`: either no call throws, or the call with a given
index throws. The calls before it take effect, the rest do not run, and the
operation takes its `catch` branch.

## Model

| member | source | states |
|---|---|---|
| Text.NatToString | src/services/authService.js:55 | `Number.prototype.toString` on a natural number: at least one character, all decimal digits, and a leading `0` only for zero |
| Text.DigitsToNatOfNatToString | src/services/authService.js:55 | reading back the decimal rendering of `n` gives `n` |
| Text.ParseInt | src/services/authService.js:155 | `parseInt` yields NaN (None) exactly when no digit follows the leading white space and optional sign |
| Text.SignFree | src/services/authService.js:155 | one leading `+` or `-` is dropped, and text without a leading sign is left as it is |
| Text.ParseIntOfParts | src/services/authService.js:155 | white space, an optional sign, digits and then any text not starting with a digit read as the digits' value, negated after a minus; the trailing text is ignored |
| Text.ParseIntOfNatToString | src/services/authService.js:155 | `parseInt` of the stored decimal expiry gives back the integer that was stored |
| Text.TrimIsSlice | src/components/QRScanner.js:21-28 | `trim` gives the contiguous slice of the input that starts where its leading white space ends |
| Text.LeadingSpace | src/components/QRScanner.js:21-28 | everything `trim` removes before that slice is white space |
| Text.TrimDropsTrailingSpace | src/components/QRScanner.js:21-28 | everything `trim` removes after that slice is white space |
| Text.TrimEnds | src/components/QRScanner.js:21-28 | the trimmed string is empty or starts and ends with a non-space character |
| Text.TrimEmpty | src/components/QRScanner.js:21 | `data.trim().length === 0` exactly when every character of `data` is white space |
| Text.TrimOfTrimmed | src/components/QRScanner.js:28 | trimming text that has no white space at either end leaves it unchanged |
| Text.BeforeFirst | src/services/authService.js:47 | `split('@')[0]` is a prefix containing no `@` that ends at the first `@` or at the end of the string |
| Text.TakeLast | src/config/merchant.js:21 | for `n > 0`, `slice(-n)` keeps the last `n` characters, or all of them when the string is shorter |
| Text.PadStart | src/config/merchant.js:22 | `padStart` gives length the larger of `width` and the length of `s`: `s` at the end and the fill character before it |
| Storage.Run | src/services/authService.js:52-55 | a run of storage calls completes exactly when no call in it throws, and then applies every call; keys no call touches keep their values |
| Storage.ApplyRemoves | src/services/authService.js:102-105 | a run of removals deletes exactly the removed keys |
| Storage.ApplySets | src/services/authService.js:52-55 | a run of writes overlays exactly the written key/value pairs |
| UserCodec.DecodeEncode | src/services/authService.js:133 | the stored user record reads back as the record that was stored |
| UserCodec.DecodeEncodeField | src/services/authService.js:53 | one length-prefixed field reads back whole and leaves the text after it untouched |
| AuthService.GetToken | src/services/authService.js:117-124 | the stored token, or null exactly when no token is stored |
| AuthService.GetUserData | src/services/authService.js:130-138 | null exactly when the record is missing, empty or unreadable; otherwise the record the stored text reads as |
| AuthService.GetUserDataOfEncode | src/services/authService.js:133 | a stored record reads back as itself, whatever else the store holds |
| AuthService.ErrorMessage | src/services/authService.js:66-87 | the four known provider codes map to their fixed messages, any other non-empty code is returned verbatim, and a missing or empty code gives "Error al iniciar sesión"; the message is never empty |
| AuthService.DisplayName | src/services/authService.js:47 | the provider's display name when it is truthy, otherwise the e-mail address up to its first `@` |
| AuthService.ExpiryText | src/services/authService.js:55 | the stored expiry is a digit string that `parseInt` reads as `now + expiresIn * 1000` |
| AuthService.Login | src/services/authService.js:22-94 | a refused sign-in writes nothing and reports the mapped message. A granted sign-in succeeds exactly when no storage call throws, and then stores the token, the user record (display name defaulted), the refresh token and the expiry under the four keys and returns the user and the token. A storage failure reports the generic message. Keys outside the session are never touched |
| AuthService.LoginRun | src/services/authService.js:52-55 | the four writes complete exactly when no call throws, touch only the session keys, and leave the session readable under all four |
| AuthService.Logout | src/services/authService.js:100-111 | sign-out succeeds exactly when no removal throws, and then the store is the old one minus exactly the four session keys; a failure reports "Error al cerrar sesión"; other keys are never touched |
| AuthService.LogoutIdempotent | src/services/authService.js:100-106 | signing out a signed-out store succeeds and changes nothing |
| AuthService.IsAuthenticated | src/services/authService.js:144-166 | a missing or empty token or expiry gives false with storage untouched; an expired session is signed out and gives false; otherwise true with storage untouched |
| AuthService.GetAuthHeader | src/services/authService.js:172-175 | a header exists exactly when a non-empty token is stored, and it is "Bearer " followed by that token |
| AuthService.LoginThenCheck | src/services/authService.js:144-161 | after a sign-in at `t0` with a non-empty token, a check at `t` is true exactly when `t < t0 + expiresIn * 1000`; a true check leaves the store alone and a false one signs out |
| AuthService.LoginGrantsHeader | src/services/authService.js:172-175 | after a completed sign-in with a non-empty token the header carries the new token |
| AuthService.EmptyTokenNeverLive | src/services/authService.js:144-175 | a completed sign-in with an empty token stores it, but no check ever finds the session live and there is no header |
| AuthService.LogoutEndsSession | src/services/authService.js:100-106 | after a completed sign-out there is no header, no stored user and no live session |
| AuthService.UnreadableExpiryNeverExpires | src/services/authService.js:155 | a stored expiry that `parseInt` cannot read is never reached, because comparing with NaN is false, so the session counts as live |
| AuthContext.CheckAuthStatus | src/context/AuthContext.js:40-59 | loading ends whatever the verdict; `isAuthenticated` is the service's verdict; the user is null when it is false and the stored record when it is true |
| AuthContext.CheckAuthStatusStable | src/context/AuthContext.js:40-59 | a second check at the same instant or later never revives a session the first found dead, and at the same instant it repeats the first result |
| AuthContext.SignedOutStaysOut | src/services/authService.js:144-166 | once an expired session has been signed out, even partly, no later check finds a live session in what is left |
| AuthContext.LogoutKeepsOrRemoves | src/services/authService.js:100-111 | even an interrupted sign-out only removes keys and never writes any |
| AuthContext.Login | src/context/AuthContext.js:66-77 | the service's result is returned unchanged; a failed sign-in leaves the state alone; after a successful one the state is whatever the re-run status check decides |
| AuthContext.LoginOutcome | src/context/AuthContext.js:66-77 | a completed sign-in with a non-empty token, re-checked before the token lapses, leaves the new user signed in; re-checked at or after the lapse by a check that meets no storage fault, it leaves nobody signed in and no session keys stored |
| AuthContext.Logout | src/context/AuthContext.js:82-91 | user and `isAuthenticated` are cleared exactly when the service reports success; on failure the state is unchanged |
| AuthContext.LogoutThenCheck | src/context/AuthContext.js:82-91 | after a completed sign-out, a status check at any time and with any storage fault finds nobody signed in and leaves the store unchanged |
| QrScanner.HandleBarcodeScanned | src/components/QRScanner.js:16-30 | empty data or a locked scanner is ignored with the lock unchanged; an invalid-QR alert leaves the lock released; a delivery holds the lock and passes the trimmed data |
| QrScanner.HandleUnlocked | src/components/QRScanner.js:17-28 | on an unlocked scanner, non-empty data is rejected as invalid exactly when it is all white space, and delivered exactly when some character is not |
| QrScanner.DeliveredIsTrimmed | src/components/QRScanner.js:21-28 | a delivered id is non-empty and has no white space at either end |
| QrScanner.LockedScannerIsSilent | src/components/QRScanner.js:17 | a locked scanner delivers nothing and stays locked whatever events follow |
| QrScanner.SingleFlight | src/components/QRScanner.js:7-28 | on one scanner instance the callback fires at most once, exactly when some event carries non-blank data, and the lock is held at the end exactly when it fired |
| QrScanner.DeliversFirstNonBlank | src/components/QRScanner.js:17-28 | what the callback receives is the first non-blank data, trimmed |
| AmountInput.Clean | src/components/AmountInput.js:18 | the cleaned text holds only digits and points and is no longer than the input |
| AmountInput.CleanCounts | src/components/AmountInput.js:18 | cleaning only deletes: every digit and point keeps its number of occurrences and every other character is gone |
| AmountInput.CleanAppend | src/components/AmountInput.js:18 | cleaning works character by character, so it keeps the kept characters in their original order |
| AmountInput.CleanOfClean | src/components/AmountInput.js:18 | already clean text is left as it is |
| AmountInput.CleanIdempotent | src/components/AmountInput.js:18 | cleaning twice is cleaning once |
| AmountInput.ParseFloat | src/components/AmountInput.js:22 | `parseFloat` on clean text reads the longest run of leading digits and, when a point follows, the longest run of digits after it; anything after that is ignored ("1.2.3" reads as 1.2); NaN exactly when the text starts with neither a digit nor a point followed by a digit |
| AmountInput.HandleSubmit | src/components/AmountInput.js:26-37 | as written, submitting calls back exactly when the text reads as a positive number, and it passes on the whole number of cents nearest 100 times that value, with halves rounding up |
| AmountInput.CentsNearest | src/components/AmountInput.js:35 | the amount in cents is the whole number nearest 100 times the value, with halves rounding up |
| AmountInput.HandleAmountChange | src/components/AmountInput.js:16-24 | the field keeps the cleaned text and is valid exactly when that text reads as a positive number |
| AmountInput.ValidIffSubmits | src/components/AmountInput.js:23-29 | the field is flagged valid exactly when submitting it calls back |
| AmountInput.SubmitRefusesNonPositive | src/components/AmountInput.js:27-32 | "", "." and "0.00" are refused |
| AmountInput.CentsExact | src/components/AmountInput.js:27-36 | with at most two fraction digits, the amount passed on is the value in cents exactly, and nothing is passed on for zero |
| AmountInput.CentsExactWhole | src/components/AmountInput.js:27-36 | a whole number of units is passed on as 100 times that number, and zero is refused |
| AmountInput.SubmitAcceptsZeroCents | src/components/AmountInput.js:27-36 | as written, "0.001" is flagged valid and submitting it passes on 0 cents |
| AmountInput.HandleSubmitChecked | src/components/AmountInput.js:27-36 | only a positive amount is ever passed on, and it is the amount as written whenever that is positive |
| GiftCardApi.ParseRedeemPathOfRedeemPath | src/services/api.js:28-31 | the gift card id is read back from its redeem path whatever characters it holds |
| GiftCardApi.RedeemPathOfParseRedeemPath | src/services/api.js:28-31 | every path that reads as a redeem path is the redeem path of the id it reads as |
| GiftCardApi.RedeemPathInjective | src/services/api.js:28-31 | different gift cards are redeemed at different paths |
| GiftCardApi.ErrorText | src/services/api.js:41 | the failure message is never empty, and it is the response body, the error message or "Error desconocido" |
| GiftCardApi.ErrorPrefersResponse | src/services/api.js:41 | a truthy response body wins over any message |
| GiftCardApi.ErrorFallsBackToMessage | src/services/api.js:41 | without a usable body, a truthy message is reported as it is |
| GiftCardApi.ErrorUnknown | src/services/api.js:41 | with neither a usable body nor a usable message, the text is "Error desconocido" |
| GiftCardApi.RedeemRequest | src/services/api.js:17-31 | the payload holds exactly the arguments, with `taxMinor` 0 when omitted, and is posted to the card's redeem path under the configured base address |
| GiftCardApi.ResultOf | src/services/api.js:33-42 | a call succeeds exactly when the service answered, with its data verbatim; a failure carries a non-empty message chosen by precedence |
| GiftCardApi.RedeemGiftCard | src/services/api.js:17-44 | one call issues exactly one request, which does not depend on the reply, and the result depends only on the reply |
| Merchant.GenerateReceiptNumber | src/config/merchant.js:20-24 | every character of a receipt number is a decimal digit |
| Merchant.PaddedDraw | src/config/merchant.js:22 | a draw in [0, 999] is written with exactly three digits that read back as the draw |
| Merchant.LastDigits | src/config/merchant.js:21 | for `k > 0`, the last `k` digits of a number's decimal rendering read as the number modulo `10^k` |
| Merchant.ReceiptLength | src/config/merchant.js:21-23 | a clock reading of at least six digits and a draw in range give a nine-digit receipt number |
| Merchant.ReceiptParts | src/config/merchant.js:21-23 | the last three digits read as the draw, the digits before them as the clock reading modulo 10^6, and the whole as `(timestamp mod 10^6) * 1000 + draw` |
| Merchant.ReceiptDistinguishesDraws | src/config/merchant.js:21-23 | at the same instant, different draws give different receipt numbers |
| RedeemScreen.ViewOf | src/screens/RedeemScreen.js:117-139 | the scanner is shown whenever `showScanner` is set; otherwise the processing view while `isProcessing` is set; otherwise amount entry |
| RedeemScreen.Rendered | src/screens/RedeemScreen.js:117-139 | re-rendering changes no screen field and no view. A scanner that was not shown before starts unlocked, and one that stays shown keeps its lock. The amount field is emptied when amount entry is not shown and kept when it is |
| RedeemScreen.HandleAmountSubmit | src/screens/RedeemScreen.js:23-26 | the amount is kept and the scanner view is shown; nothing else changes |
| RedeemScreen.HandleQRScanned | src/screens/RedeemScreen.js:28-55 | the card is recorded, the scanner closes and processing starts; the request redeems that card for the kept amount with tax 0, the configured merchant, location and POS ids, and the receipt number of this reading |
| RedeemScreen.ProcessOutcome | src/screens/RedeemScreen.js:57-103 | processing stops in every case; the success alert comes up exactly when the service answered; a failure shows "Error al redimir el giftcard: " plus the client's message, and a throw shows the unexpected-error text |
| RedeemScreen.ResetForm | src/screens/RedeemScreen.js:106-111 | the four screen fields return to their initial values and nothing else changes |
| RedeemScreen.HandleCloseScanner | src/screens/RedeemScreen.js:113-115 | the scanner is hidden, the amount is kept and nothing else changes |
| RedeemScreen.Step | src/screens/RedeemScreen.js:17-139 | one event on the screen, with either the submit as written or the corrected one; the amount field's text stays clean |
| RedeemScreen.StepDispatch | src/screens/RedeemScreen.js:17-139 | only an outcome settles a request, and it does so exactly while processing. Only a scan issues one. An open alert ignores everything but its buttons and the outcome, and alert buttons do nothing without an alert. The processing view ignores every other event. Typing on amount entry only updates the field |
| RedeemScreen.InitialInv | src/screens/RedeemScreen.js:18-21 | the initial state satisfies the workflow invariant |
| RedeemScreen.StepInv | src/screens/RedeemScreen.js:23-115 | every event keeps the invariant, for either submit: scanner and processing only ever follow a kept amount, which is positive with the corrected submit; alerts only follow a redemption; scanner, processing and alert are never up together; an unmounted component holds no state |
| RedeemScreen.ProcessingOnlyByRequests | src/screens/RedeemScreen.js:43-103 | processing starts only when a request is issued and ends only when it is settled |
| RedeemScreen.ViewFlagsExclusive | src/screens/RedeemScreen.js:117-139 | in every reachable state at most one of `showScanner` and `isProcessing` is set, and the view shown is the one that flag names |
| RedeemScreen.SubmitOpensScanner | src/screens/RedeemScreen.js:23-26 | submitting an amount the submit passes on keeps it and opens a fresh, unlocked scanner, with no request issued |
| RedeemScreen.ScanIssuesRequest | src/screens/RedeemScreen.js:28-55 | a request is issued exactly when the open, unlocked scanner reads non-blank data. It redeems the trimmed data for the kept amount (positive with the corrected submit, possibly 0 as written) with tax 0, the configured ids and that reading's receipt number, and the screen moves to processing |
| RedeemScreen.OutcomeEndsProcessing | src/screens/RedeemScreen.js:57-103 | whatever the outcome, processing ends and the amount and card stay; success raises the OK alert and a throw raises the unexpected-error alert |
| RedeemScreen.RetryReopensScanner | src/screens/RedeemScreen.js:73-93 | Retry reopens a fresh, unlocked scanner, keeps the amount and the card, and issues nothing |
| RedeemScreen.DismissResets | src/screens/RedeemScreen.js:106-111 | OK after success, or Cancel after a failure, brings back the initial state |
| RedeemScreen.CloseKeepsAmount | src/screens/RedeemScreen.js:113-115 | closing the scanner only hides it; the amount and the other fields stay |
| RedeemScreen.OneRedemptionAtATime | src/screens/RedeemScreen.js:28-103 | over any run of events, issued requests and settled outcomes strictly alternate; processing at the end means the last request is unsettled; this holds for either submit. With the corrected submit every request carries a positive amount |
| RedeemScreen.AsWrittenRedeemsZeroCents | src/screens/RedeemScreen.js:23-55 | as written, typing "0.001", submitting and scanning a card issues a redemption of 0 cents; with the corrected submit the same events issue nothing and the screen stays on amount entry |
| RedeemScreen.ZeroCentsRedeemed | src/screens/RedeemScreen.js:23-55 | as written, any text that submits 0 cents, followed by a scan, issues exactly one request, for 0 cents |
| RedeemScreen.ZeroCentsRefused | src/screens/RedeemScreen.js:23-55 | with the corrected submit, the same events issue nothing and leave the typed text on the amount entry |
| RedeemScreen.RetryRedeemsSameAmount | src/screens/RedeemScreen.js:37-75 | Retry and then a scan issue exactly one request, with the amount kept from before and the receipt number of the new reading |

## Left out

- The sign-in screen, all JSX, styles and layout are presentation. Alerts are modelled as a dialog in the state, and their buttons as events.
- The invalid-amount alert (src/components/AmountInput.js:30) and the invalid-QR alert (src/components/QRScanner.js:22) are left out. Each has a single button that only dismisses it, so they are modelled as no change to the state.
- Camera permission handling in QRScanner.js is platform I/O.
- axios and AsyncStorage are not modelled. They become a reply value and a map from keys to strings.
- `getItem` failures in the `catch` branches of `getToken`, `getUserData`, `isAuthenticated` and `checkAuthStatus` are left out. The `JSON.parse` failure that `getUserData`'s `catch` also handles is modelled: an unreadable record gives no user. Only `setItem` and `removeItem` failures are modelled.
- The user record is not stored as JSON. `UserCodec` is an injective length-prefixed stand-in with the same read-back property.
- `Date.now()` and `Math.random()` are inputs, not sources.
- `Text.ParseInt` does not read a `0x` prefix as hexadecimal. The expiry the app stores is always plain decimal.
- `Text.NatToString` does not model the exponent form `toString` uses at and above 10^21. Clock readings are far below that.
- `AmountInput.ParseFloat` works on exact decimals. `Math.round(x * 100)` on binary floating point can differ from exact rounding for more than two fraction digits.
- AmountInput.ParseFloat: has no magnitude limit. `parseFloat` loses integer precision above 2^53 and gives Infinity above about 1.8e308, which passes the `> 0` guard. The model is exact only for amounts well below 2^53.
- AmountInput.CentsExact: exact only for amounts well below 2^53 cents. Above that, binary rounding changes the number passed on.
- AmountInput.CentsExactWhole: the same bound applies. For example, `parseFloat("99999999999999999")` is 1e17, so the source passes on 1e19 cents, while the lemma gives 9999999999999999900.
- AuthService.ExpiryText: takes `expiresIn` as a natural number. The identity provider sends it as a numeric string, which `expiresIn * 1000` coerces to a number. For a well-formed reply the stored expiry is the same.
- The `toFixed(2)` display in the alerts and the processing view is not modelled.
- A response body that is not a string is not modelled. Non-empty strings are treated as truthy, as JavaScript does. An object body would render as "[object Object]".
- The e-mail and password are not modelled. The identity provider's answer abstracts the sign-in request.
- The `getToken` and `getAuthHeader` pass-throughs in AuthContext.js are not modelled. They are the service's `GetToken` and `GetAuthHeader` unchanged.
- src/config/environment.js is static configuration and is not part of this model.
- App.js composes the screens only. It has no authentication gate, and none is modelled.
- Async interleaving and React state batching are not modelled. Each handler is one atomic step.
- The `Threw` outcome of a redemption is kept for faithfulness. The client catches every error itself, so in practice this branch cannot be taken.
- RedeemScreen.Step: takes the submit guard as a parameter, either the one as written or the corrected one described under Findings.
- RedeemScreen.StepInv: keeps a positive amount only with the corrected submit. As written, the kept amount can be 0 cents (RedeemScreen.AsWrittenRedeemsZeroCents).
- RedeemScreen.ScanIssuesRequest: with the submit as written, the request can carry 0 cents. It carries a positive amount only with the corrected submit.
- RedeemScreen.OneRedemptionAtATime: the alternation holds for both submits, but only the corrected one makes every request positive.

## Findings

| source | as written | input that shows it | evidently intended | confidence | as-written member | corrected member |
|---|---|---|---|---|---|---|
| src/components/AmountInput.js:27-36 | validity and the submit guard test the parsed value for `> 0`, but the amount passed on is the value rounded to cents | "0.001": valid, and submitting it passes on an amount of 0 cents | only a positive number of cents is ever passed on | not executed | AmountInput.SubmitAcceptsZeroCents | AmountInput.HandleSubmitChecked |
| src/screens/RedeemScreen.js:23-55 | the screen keeps whatever amount the field passes on, opens the scanner and redeems that amount | typing "0.001", submitting, then scanning a card: a redemption request for 0 cents is posted | every redemption request is for a positive amount | not executed | RedeemScreen.AsWrittenRedeemsZeroCents | RedeemScreen.OneRedemptionAtATime |
