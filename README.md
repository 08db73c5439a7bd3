# CHAMA group draw — a Dafny model of the draw engine

CHAMA is a single-page web app for savings groups: the organiser creates a
session for a group of 2 to 100 members. Each member then opens the session's
shareable link and draws one unique number from 1 to the group size. A member
is recognised by a browser fingerprint and may draw only once. Sessions live
in the browser's `localStorage` under `chama_session_<id>` and expire after
24 hours.

This project models the engine inside the `ChamaApp` class of `script.js`:

- creating a session;
- drawing a number;
- loading a session from a link and its expiry;
- cleaning up old sessions;
- routing on the URL fragment;
- the participant hash;
- the ordinal suffix;
- the export document's progress field.

It proves what the engine promises about them. The modules follow the
program's structure:

- `Js` (js.dfy) holds the runtime behaviour the engine relies on:
  - `trim`, `startsWith`, `indexOf` and `replace` with a string pattern;
  - number to decimal string;
  - ToInt32, the conversion behind `<<` and `&`.
- `Identity` (identity.dfy) is `hashCode` and the fingerprint string. `HashCode` is the source's loop, proved against a fold `HashOf`. `HashOf` is proved equal to the polynomial hash reduced to signed 32 bits.
- `Sessions` (sessions.dfy) holds the session record, its invariant and the draw step:
  - the invariant says the available and drawn numbers partition 1..groupSize and that no fingerprint draws twice;
  - the draw step is the pure function `DrawStep`, and the lemmas about draw sequences are stated over it;
  - the mutable session object is the class `Session`.
- `Storage` (storage.dfy) holds `localStorage` as a class over a `map`, the two expiry tests, and the stores that `loadDrawPage` and `cleanupOldSessions` leave behind.
- `Links` (links.dfy) holds the shareable link and `checkURL`'s route parsing.
- `Report` (report.dfy) holds `getOrdinalSuffix` and the export document with its `progress` string.
- `App` (app.dfy) is `ChamaApp` itself. It holds `currentSession` and the store, and it has the methods `CreateSession`, `LoadDrawPage`, `DrawNumber`, `ExportResults`, `CleanupOldSessions`, `CheckURL` and `Init`. Each method's postcondition ties the new state to the specification functions above.

Inputs from the environment are parameters:

- the value of `Math.random()` is a real in [0, 1);
- the result of `Number.parseInt` is an `Option<int>`, with `None` for NaN;
- the id from `generateSessionId` is a string;
- the current time is an integer number of milliseconds;
- the joined fingerprint signals are a sequence of UTF-16 code units;
- the page's origin, path and fragment are strings.

A stored value is either a parsed session record or a `Corrupt` raw string.
A creation date is either a time or an Invalid Date.

Some behaviours of the code worth stating:

- The link is `origin + "/#draw/" + id` and carries only the id. A session is
  looked up in the local store alone.
- Expiry is checked only when a session is loaded (and in cleanup). `drawNumber`
  itself does not re-check the age of the current session.
- A stored value that does not parse is reported as "Invalid session data" by
  `loadDrawPage` and is not deleted there. Only `cleanupOldSessions` deletes it.
- An empty stored string is reported as not found, because `!""` is true.
- A record whose `createdAt` does not parse as a date is never expired. Both tests
  compare against NaN and are false.

## Model

| member | source | states |
|---|---|---|
| Js.TrimStartSpec | script.js:132 | `trim` drops a prefix made only of whitespace, and what remains is empty or starts with a non-whitespace character |
| Js.TrimEndSpec | script.js:132 | `trim` drops a suffix made only of whitespace, and what remains is empty or ends with a non-whitespace character |
| Js.TrimBlankIffAllWhitespace | script.js:132 | a trimmed name is empty exactly when the input is all whitespace |
| Js.TrimIsCanonical | script.js:134 | a trimmed string has no whitespace at either end, and trimming again changes nothing |
| Js.Trim | script.js:132-134 | `trim` returns a contiguous slice of the input, and everything before and after that slice is whitespace |
| Js.IndexOfSpec | script.js:119 | the position found is the first one where the pattern occurs, and None means it occurs nowhere |
| Js.ReplaceFirstWithEmpty | script.js:119 | replacing the first occurrence of a pattern by "" removes exactly the pattern's length, leaves the string alone when the pattern does not occur, and leaves the rest of the string when it starts with the pattern |
| Js.NatToString | script.js:611 | a number's decimal string is non-empty, all digits, and has no leading zero |
| Js.NatToStringRoundTrip | script.js:611 | reading the decimal string back gives the number |
| Js.IntToString | script.js:414 | an integer's decimal string, with its sign, parses back to the integer |
| Js.ToInt32 | script.js:619 | `x & x` lies in the signed 32-bit range and is congruent to x modulo 2^32 |
| Js.ToInt32Congruent | script.js:618-619 | values congruent modulo 2^32 convert to the same signed 32-bit value |
| Identity.HashOf | script.js:615-620 | every value of the accumulator is a signed 32-bit integer |
| Identity.HashStep | script.js:618-619 | one loop pass yields a signed 32-bit value, and for a signed 32-bit h it is 31*h + c reduced to signed 32 bits |
| Identity.HashIsPolynomialModulo | script.js:614-620 | the final accumulator is the polynomial hash of the code units reduced to signed 32 bits |
| Identity.HashCode | script.js:614-622 | the loop returns the absolute value of the folded hash, at most 2^31, and 0 for the empty string |
| Identity.Fingerprint | script.js:611 | the fingerprint is a non-empty decimal string whose value is the absolute value of the hash, at most 2^31 |
| Identity.UserFingerprint | script.js:611 | the fingerprint is a decimal string whose value is the hash, at most 2^31 |
| Identity.FingerprintsEqualIff | script.js:611 | two participants share a fingerprint exactly when their hashes have the same absolute value |
| Sessions.CheckGroupSize | script.js:133-139 | a size is accepted exactly when parseInt gave a number from 2 to 100, and it is kept unchanged; NaN, 0 and out-of-range sizes are refused |
| Sessions.GroupNameOrDefault | script.js:132 | a blank name becomes "CHAMA Group", any other name is trimmed, and the result is never empty or padded |
| Sessions.Iota | script.js:156 | the initial pool has groupSize entries, and entry i is i + 1 |
| Sessions.IotaMultiplicity | script.js:156 | the initial pool holds each of 1..groupSize exactly once and nothing else |
| Sessions.InitialSession | script.js:151-159 | a new session keeps the given id, name, size, description and date, its pool is 1..groupSize in ascending order, it has no draws, and it satisfies the invariant |
| Sessions.HasDrawn | script.js:245 | a fingerprint has drawn exactly when some draw record carries it |
| Sessions.PartitionOfUniverse | script.js:156-157 | in a valid session every number of 1..groupSize is available or drawn, never both, and no other number appears |
| Sessions.NumbersUnique | script.js:267-274 | in a valid session no number is drawn twice and no available number repeats |
| Sessions.DrawnCountBounded | script.js:252-255 | available plus drawn is groupSize, at most groupSize numbers are drawn, and the pool is empty exactly when everyone has drawn |
| Sessions.PickIndex | script.js:266 | `Math.floor(Math.random() * length)` is always a valid index of a non-empty pool |
| Sessions.EveryIndexReachable | script.js:266 | every position of the pool is chosen by some random value |
| Sessions.RemoveAt | script.js:270 | `splice(i, 1)` removes exactly the element at i and keeps the others in their order |
| Sessions.DrawStep | script.js:241-280 | the guards in order. A known fingerprint gives AlreadyDrawn. An empty pool gives Exhausted. Neither changes the session. Otherwise the number at the random index is removed from the pool, and one record with that number and fingerprint is appended. The other fields stay as they were |
| Sessions.DrawPreservesValid | script.js:266-277 | a draw keeps the partition of 1..groupSize and one draw per fingerprint |
| Sessions.SecondDrawRefused | script.js:245-249 | after a fingerprint has drawn, its next draw is refused and changes nothing |
| Sessions.DrawsPreserveValid | script.js:266-277 | any sequence of draws keeps the invariant and never draws more than groupSize numbers |
| Sessions.NewcomersEachDraw | script.js:252-277 | distinct participants who have not drawn each get a number while the pool lasts, each draw shrinks the pool by one, and afterwards every one of them holds a draw record |
| Sessions.DrawAllKeepsEarlierDraws | script.js:266-277 | a participant who has drawn still holds a draw record after any further draws |
| Sessions.FullRoundAssignsEveryNumber | script.js:238-280 | groupSize distinct participants on a new session use up the pool, and every number of 1..groupSize is drawn by exactly one record |
| Sessions.DrawAllKeepsMetadata | script.js:266-277 | draws change only the available and drawn numbers |
| Sessions.Session.Data | script.js:280 | the snapshot written to the store holds exactly the object's current fields |
| Sessions.Session.FromData | script.js:151-159 | the session object holds exactly the fields of the record it is built from |
| Storage.SessionKey | script.js:162 | a session's key is `chama_session_` followed by its id |
| Storage.LocalStorage.GetItem | script.js:187 | `getItem` returns the stored value for a present key and nothing for a missing one |
| Storage.LocalStorage.SetItem | script.js:162 | `setItem` adds or overwrites one key and leaves the others |
| Storage.LocalStorage.RemoveItem | script.js:203 | `removeItem` removes one key and leaves the others |
| Storage.ExpiredOnLoad | script.js:198-202 | a session is expired on load exactly when its date parses and more than 24 hours have passed since it |
| Storage.StaleOnCleanup | script.js:654-661 | a session is stale in cleanup exactly when its date parses and it is older than now minus a day |
| Storage.Cleaned | script.js:656-669 | the store after cleanup keeps exactly the keys that are not purged, with their values unchanged |
| Storage.Resolve | script.js:187-206 | a missing key or an empty string gives NotFound, any other unreadable value gives InvalidData, a record whose date parses and is more than a day old gives Expired, and otherwise the stored record is loaded and is not expired |
| Storage.AfterResolve | script.js:202-205 | the load removes the session's key only when it is expired, and keeps every other key and every value |
| Storage.ExpiryTestsAgree | script.js:200-202 | the load test (hours > 24) and the cleanup test (older than now minus a day) agree, and both mean more than 24 hours have passed |
| Storage.CleanupKeepsOtherKeys | script.js:656-657 | cleanup never removes or changes a key without the `chama_session_` prefix |
| Storage.CleanupLeavesOnlyLiveSessions | script.js:656-669 | after cleanup every session key holds a record that is at most a day old or whose date does not parse, and a second cleanup at the same time changes nothing |
| Storage.CleanupMonotoneInTime | script.js:654-661 | a later cleanup keeps no key that an earlier one would remove |
| Storage.ExpiredSessionIsDeleted | script.js:202-205 | an expired session is rejected and its key removed, so a later load finds nothing. Every other key is unchanged |
| Storage.LoadedMeansFresh | script.js:198-208 | a loaded session is the stored record, and it is at most 24 hours old or its date does not parse |
| Storage.LoadAfterCleanup | script.js:652-670 | right after cleanup, a load at the same time finds a usable session or nothing, never an expired or unreadable one |
| Links.ShareableLink | script.js:165 | the link is the origin, then `/#draw/`, then the session id, and nothing else |
| Links.FragmentOf | script.js:116 | the fragment is the URL's suffix from its first `#`; it is empty exactly when there is no `#` or the only `#` is the last character |
| Links.ParseRoute | script.js:114-124 | the draw page is chosen exactly when the path is "/" and the fragment starts with `#draw/`, and the id is the fragment after that prefix |
| Links.LinkRoundTrip | script.js:165 | the fragment of a session's shareable link routes back to that session's draw page |
| Report.OrdinalSuffix | script.js:624-631 | the number's digits followed by "th" for 11-13 modulo 100, otherwise "st", "nd" or "rd" for a last digit of 1, 2 or 3, otherwise "th". The digits read back as the number |
| Report.Progress | script.js:414 | the progress string `drawn/total` reads back as the two counts |
| Report.Export | script.js:402-415 | the document carries the session's metadata and remaining pool, one entry per draw with its number, ordinal and time, and a progress field that reads back as the draw count and the group size |
| Report.ExportProgressShowsCompletion | script.js:402-414 | for a valid session the exported progress reads back as the draw count and the group size, and it is `n/n` exactly when no number is left |
| App.ChamaApp.constructor | script.js:2-7 | the app starts with no current session over the given store and runs `init`: on the home route it only cleans up; on a draw route it loads the named session, which becomes current exactly when it is loaded, and the store ends as the load's store cleaned up |
| App.ChamaApp.CreateSession | script.js:131-184 | an invalid size changes neither the store nor the current session. A valid one stores the initial session, which satisfies the invariant, under its key, makes it current and returns its shareable link |
| App.ChamaApp.LoadDrawPage | script.js:186-214 | the outcome and the store afterwards are those of the store lookup with expiry, and only a loaded session becomes current |
| App.ChamaApp.DrawNumber | script.js:238-296 | with no current session nothing happens. Otherwise the session object changes as `DrawStep` says, the store is written only on a successful draw and then holds the updated session, and the invariant is kept |
| App.ChamaApp.ExportResults | script.js:399-415 | the document is built only when there is a current session, and its progress reads back as the draw count and the group size |
| App.ChamaApp.CleanupOldSessions | script.js:652-670 | the loop over the keys leaves the store that cleanup specifies |
| App.ChamaApp.CheckURL | script.js:114-124 | the route is the parsed one, and a draw route loads the named session with that load's effects |
| App.ChamaApp.Init | script.js:9-15 | routing happens first, then cleanup at the same time; only a loaded session becomes current, and otherwise the current session is unchanged |

## Left out

- App.ChamaApp.constructor: the `darkMode` field, `initDarkMode`, `bindEvents` and `updateSizePreview` (script.js:3-13) are left out. They concern the theme and the DOM.
- Links.FragmentOf: stands for the browser's `location.hash`, computed from a URL string. The browser's URL parsing and percent-encoding are not modelled.
- Everything on the page is left out: DOM reads and writes, page switching, `updateSizePreview`, `updateDrawPageUI`, `showDrawResult`, `showDrawError`, `showResults`, `updateResults`, `resetForm`, toasts, sound, confetti, dark mode and the QR placeholder. The outcome datatypes stand for the messages they show. Two of these also change state, and that is not modelled: `updateResults` replaces `currentSession` with the stored copy (script.js:336) and sorts its `availableNumbers` in place (script.js:379), so a later draw picks from the sorted pool and writes the sorted lists back; `resetForm` sets `currentSession` to null (script.js:585), after which a draw does nothing.
- The in-place sort of the results view (script.js:355) is left out. It is a view side effect, and no property here depends on draw order in the results view.
- Clipboard, `navigator.share` and the WhatsApp link (`copyLink`, `shareResult`, `shareOnWhatsApp`) are left out. They are foreign browser APIs.
- `generateSessionId` (script.js:588-590) is not modelled. Its result is a parameter because it depends on `Math.random`.
- `getUserFingerprint`'s environment probing (script.js:593-609) is not modelled: canvas, navigator, screen and time zone. The joined string's UTF-16 code units are the input.
- The 800 ms `setTimeout` in `drawNumber` is left out. The draw is one atomic step.
- JSON and dates are abstracted. `JSON.stringify`, `JSON.parse` and ISO date strings are not modelled: a stored value is a parsed record or a `Corrupt` raw string, and a date is integer milliseconds or Invalid Date. A stored value that parses to something other than a session or `null` (for example `true`, or an object without fields) is not modelled.
- The export download plumbing (script.js:417-425) is left out. So is `JSON.stringify`'s layout of the document.
- The global event listeners (script.js:674-695) are left out, including the reload on `popstate`.
- Sessions.PickIndex: computes `rand * length` with exact reals. Floating-point rounding is not modelled, here or in the hour difference of `loadDrawPage`.
- Sessions.GroupNameOrDefault: the whitespace `trim` removes is the fixed list of ECMAScript white-space and line-terminator code points. The Unicode "Zs" category is taken as of the current standard.
- Report.OrdinalSuffix: takes a natural number. The engine only ever passes drawn numbers, which are at least 1. For negative inputs JavaScript's `%` truncates, and this is not modelled.
- Sessions.CheckGroupSize: takes parseInt's result as an input. The parsing of the form text by `Number.parseInt` is not modelled.
- Concurrency between devices is not modelled. Each browser holds its own copy of a session, and the model describes one copy.
