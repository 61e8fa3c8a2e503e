# FarmCash waitlist client — Dafny model

This project models the client-side logic of the FarmCash waitlist and
referral signup (`js/farmcash-auth.js`): the browser fingerprint (user-agent
classification and the `simpleHash` digest), the referral-code allocator, the
signup writer that creates or updates a `users` row and inserts a
`waitlist_signups` row, the dashboard and referral-code lookups, and the
referral code kept in `localStorage`.

Everything the page gets from outside is an input. The user-agent string,
IP lookup answer and timezone are parameters. The random index choices are a
`Draw` of six picks in [0, 32). Every backend reply is an oracle value:
`Reply<T> = Ok(data) | Err(BackendError(code, message))`. The backend tables
are a `Db` value (`users` as a map, `waitlist_signups` as a sequence) that
each operation threads through and returns. `localStorage` is a map from keys
to strings.

Modules, following the sections of the source file:

- `Text`: `includes`, regular-expression alternation with and without the `i`
  flag, and the UTF-16 code units that `charCodeAt` sees.
- `UserAgent`: `getBrowser`, `getOS` and `getDeviceType`, with a
  precedence-table reference definition (`Classify`) they are proved to
  follow.
- `JsNumber`: ToInt32, `<<` and `&` on Numbers (section 7.1.6 of ECMA-262),
  `Math.abs`, and `toString(36)` (section 21.1.3.6 of ECMA-262) with its
  parser.
- `Fingerprint`: `simpleHash` and `getQuickFingerprint`.
- `ReferralCode`: the 32-symbol alphabet and the six-symbol candidate code.
- `Backend`: rows, tables and replies.
- `Allocator`: `generateUniqueReferralCode`.
- `Signup`: `createWaitlistUser`.
- `Lookups`: `getUserDashboardData` and `getUserIdFromReferralCode`.
- `LocalCache`: the three `localStorage` helpers.
- `Flows`: one end-to-end property, signup followed by referral lookup.

Some consequences of the source's logic are proved as stated:

- A standard iPhone user agent contains "like Mac OS X", so `getOS` reports
  "Mac" for it and never "iOS".
- A user agent that contains "Linux; Android" is reported as "Linux" (or an
  earlier match) and never as "Android". A user agent that names Android
  without "Linux", as Firefox for Android does, is reported as "Android".
- The allocator retries on every lookup outcome except error code
  `PGRST116`, network and permission errors included.
- `.single()` reports `PGRST116` when several rows match as well as when
  none does, so the allocator hands out a code that two users already share
  (`Allocator.SharedCodeIsReissued`). While no two users share a code,
  every allocated code is unused, and a signup keeps codes unique.
- A failed IP lookup leaves the IP `null`, and the hashed string then
  contains the text `null`.
- An insert of a user row whose id already exists (the lookup failed for
  another reason) fails on the primary key and changes nothing.

## Model

| member | source | states |
|---|---|---|
| UserAgent.GetBrowserFollowsPrecedence | js/farmcash-auth.js:46-53 | `getBrowser` returns the label of the first of Edg, Chrome, Firefox, Safari that occurs in the UA, and Other when none does |
| UserAgent.GetOsFollowsPrecedence | js/farmcash-auth.js:55-63 | `getOS` returns the first of Windows, Mac, Linux, Android, then any of iPad/iPhone/iPod (iOS), and Other otherwise |
| UserAgent.GetDeviceTypeFollowsPrecedence | js/farmcash-auth.js:65-70 | `getDeviceType` is mobile for a case-insensitive Mobile/Android/iPhone, else tablet for iPad/Tablet, else desktop |
| UserAgent.EdgeBeforeChrome | js/farmcash-auth.js:48-49 | a UA containing "Edg" is Edge even if it names Chrome; Chrome holds exactly when "Chrome" occurs and "Edg" does not |
| UserAgent.IosOnlyAfterDesktopNames | js/farmcash-auth.js:57-61 | iOS is reported if and only if none of Windows, Mac, Linux, Android occurs and one of iPad, iPhone, iPod does; a UA naming Linux is never Android or iOS |
| UserAgent.MobileBeforeTablet | js/farmcash-auth.js:67-68 | mobile if and only if Mobile, Android or iPhone occurs in any case, whatever tablet marker is present; tablet if and only if none of those occurs and iPad or Tablet does |
| UserAgent.AppleMobileUaIsNotIos | js/farmcash-auth.js:57-61 | any UA containing "like Mac OS X" is classified Windows or Mac, never iOS |
| UserAgent.AndroidUaIsNotAndroid | js/farmcash-auth.js:57-60 | any UA containing "Linux; Android" is classified Windows, Mac or Linux, never Android |
| JsNumber.ToInt32 | js/farmcash-auth.js:76-77 | the result is a signed 32-bit integer congruent to the input modulo 2^32 |
| JsNumber.SelfAndIsToInt32 | js/farmcash-auth.js:77 | `x & x`, with `&` computed bit by bit on the 32-bit patterns, equals ToInt32(x) |
| JsNumber.ToRadix36 | js/farmcash-auth.js:79 | `toString(36)` yields a non-empty string of 0-9a-z with no leading zero that parses back to the number; one digit exactly below 36 |
| JsNumber.Radix36RoundTrip | js/farmcash-auth.js:79 | every canonical base-36 string is the rendering of the number it denotes, so rendering is a bijection onto canonical strings |
| Fingerprint.HashStepIsMultiplyAdd | js/farmcash-auth.js:76-77 | one loop step `((h<<5)-h)+c` then `h&h` equals ToInt32(31*h + c) |
| Fingerprint.HashFoldIsPolynomial | js/farmcash-auth.js:73-78 | the folded hash equals the signed 32-bit reduction of the polynomial hash of the code units |
| Fingerprint.SimpleHash | js/farmcash-auth.js:72-80 | the digest is a canonical base-36 string whose value is the absolute value of the reduced polynomial hash, at most 2^31; the empty string hashes to "0" |
| Fingerprint.QuickFingerprint | js/farmcash-auth.js:20-44 | the record carries the given IP and timezone and the three UA classifications; its hash is a canonical base-36 string whose value is the absolute value of the reduced polynomial hash of the UTF-16 units of `${ip}-${timezone}-${browser}-${os}` |
| Fingerprint.SameHashInputSameHash | js/farmcash-auth.js:40-41 | the fingerprint hash depends on IP, timezone and UA only through the string `${ip}-${timezone}-${browser}-${os}` |
| ReferralCode.AlphabetUnambiguous | js/farmcash-auth.js:219 | the alphabet has 32 pairwise distinct symbols and contains none of I, O, 0, 1 |
| ReferralCode.CodeOfShape | js/farmcash-auth.js:223-226 | every candidate code has length 6 and only alphabet symbols, none of them I, O, 0 or 1 |
| ReferralCode.DrawRoundTrip | js/farmcash-auth.js:223-226 | the six index choices can be read back from the code they produce |
| ReferralCode.CodeShapedIffDrawn | js/farmcash-auth.js:219-226 | a string is some draw's code if and only if it has 6 alphabet symbols |
| ReferralCode.CodeOfInjective | js/farmcash-auth.js:223-226 | different index choices give different codes |
| Allocator.AllocateFrom | js/farmcash-auth.js:221-242 | from attempt n the loop makes at most the remaining budget of lookups, in order; it stops at the first PGRST116 reply with that attempt's code, and otherwise spends the whole budget |
| Allocator.GenerateUniqueReferralCode | js/farmcash-auth.js:218-246 | at most max(0, maxAttempts) lookups; a code is returned if and only if one of the first maxAttempts lookups reported PGRST116, and it is that first attempt's code; otherwise the call throws after exactly max(0, maxAttempts) lookups |
| Allocator.AllocatedCodeIsFresh | js/farmcash-auth.js:228-238 | if no two users share a code and each lookup is answered as `.single()` does (the id for exactly one match, PGRST116 otherwise), the returned code is well-formed and held by no user |
| Allocator.SharedCodeIsReissued | js/farmcash-auth.js:228-236 | a drawn code that two users already hold is answered PGRST116 by `.single()` and returned as unique |
| Allocator.AlwaysTakenExhausts | js/farmcash-auth.js:221-245 | when every lookup finds a row, the allocator throws after exactly max(0, maxAttempts) lookups |
| Signup.CreateWaitlistUser | js/farmcash-auth.js:132-215 | the user lookup comes first; the waitlist insert is issued, last, exactly when the user write succeeded (an insert over an existing id never does); a rejected insert or update fails with the backend's message; success exactly when every write succeeded, appending and returning the waitlist row, whose survey, IP, timezone, browser, OS, device type and hash columns are the inputs and whose referrer is `document.referrer` or "direct" when empty; no other user row changes and nothing changes without a successful user write |
| Signup.AbsentUserIsCreated | js/farmcash-auth.js:141-167 | on a failed lookup the allocator runs before any write; if it gives up nothing is written after 5 lookups; an insert over an existing id fails with the duplicate-key error and writes nothing; otherwise the user is inserted with seeds 0, cash 0, level 1, harvests 0, XP 0, water 100, the waitlist flag, the referrer and the allocated code, which a success returns |
| Signup.PresentUserIsUpdated | js/farmcash-auth.js:168-182 | with an existing user no code is allocated; only the waitlist flag and referred_by change, even to null; the stored referral code is kept and the looked-up one is returned |
| Signup.WaitlistFailureKeepsUserWrite | js/farmcash-auth.js:184-214 | a failed waitlist insert fails the call with its message but leaves the user table as a successful signup would, with no rollback |
| Signup.SignupKeepsCodesUnique | js/farmcash-auth.js:141-182 | starting from unique referral codes, with code lookups answered as `.single()` does, a signup leaves no code held by two users |
| Signup.LookupErrorsAreAlike | js/farmcash-auth.js:135-144 | only the lookup's data is read: any two lookup errors lead to the same run |
| Lookups.GetUserDashboardData | js/farmcash-auth.js:275-308 | success if and only if both lookups succeed, and the view splits back into the two replies; a user-lookup error fails with its message before the waitlist query; a waitlist error fails with its message |
| Lookups.MergeSplits | js/farmcash-auth.js:295-302 | merging profile and waitlist status loses nothing, and every view is such a merge |
| Lookups.GetUserIdFromReferralCode | js/farmcash-auth.js:321-336 | an id is returned if and only if the lookup succeeded with a non-empty id, and it is that id; every error gives null |
| Lookups.LookupFindsSoleHolder | js/farmcash-auth.js:321-330 | a `.single()` lookup of a code held by exactly one user, answered truthfully, resolves to that user's id |
| LocalCache.StoreReferralCode | js/farmcash-auth.js:339-343 | a truthy code is then read back; null or "" leaves storage unchanged; no other key changes |
| LocalCache.ClearStoredReferralCode | js/farmcash-auth.js:349-351 | afterwards the stored code reads as null; no other key changes |
| LocalCache.StoreReadClear | js/farmcash-auth.js:339-351 | a stored code reads back until it is cleared, then reads as null; storing the same code twice is storing it once |
| Flows.NewUserCodeResolvesToUser | js/farmcash-auth.js:143-162 | after a signup that creates the user, from unique codes and with code lookups answered as `.single()` does, the returned code is well-formed, the new user is its only holder, and a truthful referral lookup of it yields the new user's id |

## Left out

- `netlify/funcitons/verify.js`, the verification relay: it only forwards a request with `fetch` and copies the response status. It has no logic to model.
- `checkAuth`, `signUpUser`, `sendMagicLink`, `signOut`: these pass straight through to the backend's authentication client, which is not part of this model.
- `generateRandomPassword` and `Math.random`: floating-point randomness. The allocator's choices are a `Draw` of six indices in [0, 32), and each attempt's draw and reply come from the function `attempts: nat -> Attempt`.
- `getQuickFingerprint`'s IP fetch and `Intl` timezone lookup are environment I/O. Their results are parameters, with a failed IP lookup passed as `None`. The case of a reply without an `ip` field (`undefined`) is not modelled.
- `processEmailVerification` is a remote procedure whose logic runs on the server and is not visible here.
- `getReferralCode` parses `window.location` with the browser's `URLSearchParams`.
- `document.referrer` is a parameter of the signup. Console logging is left out.
- Concurrency is left out. Each call runs sequentially against one `Db` value, so the race between two clients that check the same code and then insert it is not represented. `Allocator.SharedCodeIsReissued` states what the allocator does once such a race has left two users holding one code.
- The duplicate-key error of an insert over an existing user id is PostgreSQL's unique-violation error on the default `users_pkey` constraint. The backend's actual schema is not part of this model.
- Columns the database fills in (`referral_count`, `creation_date`, waitlist `created_at` and `email_verified`) come from the replies. They are not modelled as table defaults.
- The survey answers are passed through unread as opaque strings.
- JavaScript strings may hold unpaired surrogates. Dafny strings cannot, so `simpleHash` takes a sequence of UTF-16 code units and the fingerprint encodes its string to code units.
- `includes` and regular expressions work on UTF-16 code units, and the model matches on Unicode characters instead. Every pattern here is ASCII, and ASCII never occurs inside a surrogate pair, so both give the same answers.
- Number arithmetic is modelled on unbounded integers. This is exact because every intermediate value of `simpleHash` is an integer below 2^53 in magnitude.
