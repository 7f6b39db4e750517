# Device-limited sessions, modelled in Dafny

This project models the core of a small account system where each account
may stay signed in on a bounded number of devices. It has three parts:

- **Server** (Express and Mongoose). It keeps one session record per
  account: `userId`, `email`, optional `name` and `phoneNumber`, an ordered
  device list, and a capacity `maxDevices` that defaults to 3. Three
  handlers act on these records:
  - `GET /user` finds an account's record by email, or creates one.
  - `checkUserProfile` gates requests on a complete profile.
  - `manageDevices` admits a device. A known device is renamed in place. A
    new device is appended while there is room; when the list is full, the
    oldest device is shifted off and reported as logged out.
- **Browser identity**. A device id is a 32-bit string hash of a browser
  fingerprint, written in base 36 and kept in local storage. The device
  label is chosen from the user agent.
- **Client state**. This covers profile-form validation, the device list
  of the limit dialog, and the profile page's state machine. That machine
  fetches the account, polls it every minute, logs devices out, and has a
  one-way `isLoggingOut` latch. Once the user leaves, the latch stops new
  fetches and polling, but a reply to a fetch already in flight still
  lands.

Each source file becomes one module:

| module | file | form |
|---|---|---|
| `JsText` | JavaScript value and string semantics used throughout | functions and lemmas |
| `UserSessionSchema` | `server/models/UserSession.js`, and `findOne` and `create` on the collection | datatypes, functions |
| `AuthMiddleware` | `server/middleware/auth.js` | functions and lemmas (the decision and admission rules) |
| `UserRoute` | `server/routes/user.js` | functions and lemmas |
| `SessionStore` | the collection as the handlers mutate it | class `Store` over a `seq<UserSession>` |
| `DeviceUtils` | `app/lib/deviceUtils.ts` | functions; class `LocalStorage` with the hash loop |
| `UserDetailsForm` | `app/Components/UserDetailsModal.tsx` | predicates; class `UserDetailsModal` |
| `ApiTypes`, `DeviceSelection` | `app/lib/apiUtils.ts` types, `app/Components/DeviceSelectionModal.tsx` | datatypes, functions and lemmas |
| `Profile` | `app/Components/Profile/Profile.tsx` | step functions and lemmas; class `ProfileComponent` |

The handlers that change state are class methods with imperative bodies:
`Store.ManageDevices`, `Store.GetUser`, `LocalStorage.GenerateDeviceId`,
`UserDetailsModal.ValidateForm`, and the `ProfileComponent` handlers. Each
method's `ensures` ties its result and new state to a pure step function of
the old state. The properties are proved about those step functions.

Device admission follows the code. When the list is full, the oldest
device is evicted automatically (`server/middleware/auth.js:84-93`). The
server has no operation that refuses a new device at the limit. It also
has no operation that removes a chosen device. The client calls
`/user/logout` and `/user/update` (`app/lib/apiUtils.ts:48-84`), but
`server/routes/user.js` defines only `GET /`. The model therefore has no
server-side limit refusal, device removal, or profile update. On the
client, a logout request and its reply are modelled only as inputs to the
profile page.

## Model

| member | source | states |
|---|---|---|
| JsText.ContainsIffOccurs | app/Components/DeviceSelectionModal.tsx:24-27 | `includes` holds exactly when the pattern occurs at some position of the text |
| JsText.NotContainsMissingChar | app/Components/DeviceSelectionModal.tsx:24-27 | a pattern with a character the text lacks is not included in it |
| JsText.OccursContains | app/Components/DeviceSelectionModal.tsx:24-27 | an occurrence at any position makes `includes` true |
| JsText.LowerAscii | app/Components/DeviceSelectionModal.tsx:23 | `toLowerCase` on ASCII: same length, each character lower-cased on its own |
| JsText.LowerAsciiIdempotent | app/Components/DeviceSelectionModal.tsx:23 | lower-casing an already lower-cased string changes nothing |
| JsText.TrimEmptyIffAllSpace | app/Components/UserDetailsModal.tsx:31-35 | `trim()` is empty exactly when every character is WhiteSpace or LineTerminator |
| JsText.TrimIsSlice | app/Components/UserDetailsModal.tsx:49-52 | the trimmed value is a contiguous slice of the input, with no whitespace at either end |
| JsText.TrimStart | app/Components/UserDetailsModal.tsx:31 | removes exactly the leading whitespace: a suffix of the input that does not start with whitespace |
| JsText.TrimEnd | app/Components/UserDetailsModal.tsx:31 | removes exactly the trailing whitespace: a prefix of the input that does not end with whitespace |
| UserSessionSchema.Validate | server/models/UserSession.js:3-34 | a new document is accepted iff `userId`, `email` and each device's `deviceId` and `deviceName` are present and non-empty; the record keeps the document's fields, and `maxDevices` is 3 when the document gives none |
| UserSessionSchema.Insert | server/models/UserSession.js:15-19 | `create` succeeds iff the document validates and its `userId` is not yet taken; it then appends exactly the validated record and keeps `userId`s unique |
| UserSessionSchema.FindIndex | server/middleware/auth.js:73 | `findIndex`: -1 iff no element satisfies the test, otherwise the first index that does |
| UserSessionSchema.FindByUserId | server/middleware/auth.js:15 | `findOne({userId})`: the first record with that id, -1 iff none; an absent id matches nothing |
| UserSessionSchema.FindByEmail | server/routes/user.js:17 | `findOne({email})`: the first record with that email, -1 iff none |
| AuthMiddleware.OrEmpty | server/middleware/auth.js:34-35 | the value when truthy, the empty string otherwise |
| AuthMiddleware.CheckUserProfile | server/middleware/auth.js:4-41 | 400 iff `userId` is falsy; 404 iff no record has it; "Profile incomplete" iff the found record's `name` or `phoneNumber` is falsy, echoing both (as '' when absent); passes the found record on only when both are truthy; the collection is not changed |
| AuthMiddleware.FindDeviceIndex | server/middleware/auth.js:73 | the first device with that id, -1 iff none |
| AuthMiddleware.Admit | server/middleware/auth.js:72-96 | the device is always listed afterwards under the new name; a known id: same length and position, every other entry unchanged, nothing evicted; a new id below capacity: appended at the end; a new id at capacity: the result is `old[1..] + [new]` and `old[0]` is reported; an empty list at capacity evicts nothing |
| AuthMiddleware.AdmitWithinCapacity | server/middleware/auth.js:84-96 | a list within a capacity of at least 1 stays within it |
| AuthMiddleware.AdmitOverflowsZeroCapacity | server/middleware/auth.js:84-87 | with capacity 0 and an empty list, `shift` frees nothing and the list grows to length 1 |
| AuthMiddleware.AdmitKeepsIdsDistinct | server/middleware/auth.js:73-96 | pairwise distinct device ids stay distinct |
| AuthMiddleware.EvictedDeviceIsUnlisted | server/middleware/auth.js:84-91 | with distinct ids, the evicted device's id no longer occurs in the list |
| AuthMiddleware.ReadmitIsRename | server/middleware/auth.js:73-81 | admitting the same id again keeps the length and position and evicts nothing |
| AuthMiddleware.AdmitAllKeepsInvariant | server/middleware/auth.js:72-96 | over any sequence of admissions, capacity and distinct ids are preserved |
| AuthMiddleware.ManageDevicesStep | server/middleware/auth.js:52-100 | 400 iff `deviceId` or `deviceName` is falsy; 404 iff no record has the `userId`; both leave the collection unchanged; otherwise only the found record changes, and only in its device list, which becomes the admitted list; the evicted device is reported |
| AuthMiddleware.ManageDevicesKeepsInvariant | server/middleware/auth.js:72-97 | the registry invariant (schema, unique ids, distinct device ids, capacity) is preserved |
| UserRoute.ProjectHidesOnlyCapacity | server/routes/user.js:29-38 | two records have the same response projection iff they differ at most in `maxDevices` |
| UserRoute.GetUserStep | server/routes/user.js:6-39 | 400 iff the email is falsy, with no change; the user is answered iff there is an email and either a record has it or the fresh id is non-empty and free; a found record is answered as-is, with no change; otherwise exactly one record is appended, holding the fresh id, the email, no name or phone, no devices and capacity 3; failure iff the fresh id is empty or taken; existing records are never changed |
| UserRoute.GetUserTwice | server/routes/user.js:17-27 | a second call with the same email changes nothing and answers with the same `userId`; after a creation, the created record is the only one with that email |
| UserRoute.GetUserKeepsInvariant | server/routes/user.js:19-27 | the registry invariant is preserved |
| SessionStore.Store.constructor | server/models/UserSession.js:14-37 | an empty collection satisfies the invariant |
| SessionStore.Store.ManageDevices | server/middleware/auth.js:52-100 | the in-place update (index assignment, `shift`, `push`, `save`) yields exactly `ManageDevicesStep`'s answer and collection, and keeps the invariant |
| SessionStore.Store.GetUser | server/routes/user.js:6-39 | the find-or-create yields exactly `GetUserStep`'s answer and collection, and keeps the invariant |
| DeviceUtils.ToInt32 | app/lib/deviceUtils.ts:21 | `x & x`: the result lies in [-2^31, 2^31) and is congruent to the input modulo 2^32 |
| DeviceUtils.ToInt32Congruent | app/lib/deviceUtils.ts:20-21 | numbers congruent modulo 2^32 have the same 32-bit value |
| DeviceUtils.ToInt32OfInt32 | app/lib/deviceUtils.ts:21 | a value already in 32-bit range is unchanged |
| DeviceUtils.HashStepIsTimes31 | app/lib/deviceUtils.ts:19-21 | one loop step computes ToInt32(31·hash + code unit) and stays in 32-bit range |
| DeviceUtils.HashOf | app/lib/deviceUtils.ts:17-22 | the hash of any string lies in [-2^31, 2^31) |
| DeviceUtils.HashOfUnfolds | app/lib/deviceUtils.ts:17-22 | the hash of `s + [c]` is ToInt32(31·hash(s) + c) |
| DeviceUtils.ToBase36 | app/lib/deviceUtils.ts:24 | `toString(36)` gives a non-empty string over `[0-9a-z]` with no leading zero, except for 0 itself |
| DeviceUtils.Base36RoundTrip | app/lib/deviceUtils.ts:24 | reading the base-36 numeral back gives the number |
| DeviceUtils.DeviceIdOf | app/lib/deviceUtils.ts:17-24 | the id is non-empty, over `[0-9a-z]`, and reads back as the absolute value of the hash, which is at most 2^31 |
| DeviceUtils.GetDeviceName | app/lib/deviceUtils.ts:29-44 | the label is one of the eight, and a mobile label exactly when the mobile pattern matches |
| DeviceUtils.EightDeviceLabels | app/lib/deviceUtils.ts:29-44 | there are exactly eight distinct labels |
| DeviceUtils.DeviceNameIgnoresCase | app/lib/deviceUtils.ts:32-41 | the label does not depend on the letter case of the user agent |
| DeviceUtils.DeviceNamePriorities | app/lib/deviceUtils.ts:32-43 | among mobile agents, iPhone beats iPad beats Android beats the "Mobile Device" fallback; among the rest, Mac beats Windows beats Linux beats the "Desktop Browser" fallback |
| DeviceUtils.AndroidLinuxAgentIsAndroid | app/lib/deviceUtils.ts:32-41 | the mobile test comes first: "Linux; Android" is an Android device, not a Linux PC |
| DeviceUtils.LocalStorage.constructor | app/lib/deviceUtils.ts:14 | storage starts with no `deviceId` |
| DeviceUtils.LocalStorage.GenerateDeviceId | app/lib/deviceUtils.ts:17-26 | the loop computes `DeviceIdOf(fingerprint)`, and exactly that id is stored |
| DeviceUtils.LocalStorage.GetDeviceInfo | app/lib/deviceUtils.ts:46-51 | the fresh id and the user agent's label, with the id stored |
| UserDetailsForm.PhonePatternByCharacter | app/Components/UserDetailsModal.tsx:37 | the pattern holds iff the string is neither empty nor `+` alone, has a `+` at most in first position, and has only `[\d\s\-()]` characters elsewhere |
| UserDetailsForm.PlusAloneRejected | app/Components/UserDetailsModal.tsx:37 | `"+"` alone fails |
| UserDetailsForm.PlusOnlyFirst | app/Components/UserDetailsModal.tsx:37 | a `+` anywhere but first fails |
| UserDetailsForm.ErrorsFor | app/Components/UserDetailsModal.tsx:28-39 | a name error iff the name trims to empty; a phone error iff the phone trims to empty or fails the pattern, and it reads "required" for a blank phone without consulting the pattern |
| UserDetailsForm.NoErrorsIffValid | app/Components/UserDetailsModal.tsx:28-43 | no error keys iff the name and the phone each have a non-space character and the untrimmed phone matches |
| UserDetailsForm.WhitespacePhoneIsRequiredNotInvalid | app/Components/UserDetailsModal.tsx:35-39 | a whitespace-only phone matches the pattern, yet is reported as required |
| UserDetailsForm.UserDetailsModal.constructor | app/Components/UserDetailsModal.tsx:24-26 | fields start from the initial values, or '' when those are falsy; no errors |
| UserDetailsForm.UserDetailsModal.ValidateForm | app/Components/UserDetailsModal.tsx:28-43 | the stored errors are `ErrorsFor` the fields; the result is true iff the form is valid |
| UserDetailsForm.UserDetailsModal.HandleSubmit | app/Components/UserDetailsModal.tsx:45-54 | submits iff valid, and then with both values trimmed |
| DeviceSelection.DeviceIcon | app/Components/DeviceSelectionModal.tsx:22-31 | on the lower-cased name: a smartphone iff it includes "phone" or "mobile"; a tablet iff it includes neither but "tablet" or "ipad"; a monitor iff it includes none of the four |
| DeviceSelection.DeviceIconIgnoresCase | app/Components/DeviceSelectionModal.tsx:22-23 | a name and its lower-case form get the same icon |
| DeviceSelection.PhoneTestedBeforeTablet | app/Components/DeviceSelectionModal.tsx:24-29 | "iPad Mobile" is a smartphone |
| DeviceSelection.SmartphoneLabels | app/Components/DeviceSelectionModal.tsx:24-26 | "iPhone" and "Mobile Device" show a smartphone |
| DeviceSelection.TabletLabel | app/Components/DeviceSelectionModal.tsx:27-29 | "iPad" shows a tablet |
| DeviceSelection.MonitorWhenWordsMissing | app/Components/DeviceSelectionModal.tsx:24-30 | a name whose lower-case form lacks a letter of each of phone, mobile, tablet and ipad shows a monitor |
| DeviceSelection.IconsOfDeviceLabels | app/Components/DeviceSelectionModal.tsx:22-31 | over the eight labels, a smartphone exactly for "iPhone" and "Mobile Device" and a tablet exactly for "iPad"; the other five, "Android Device" included, show a monitor |
| DeviceSelection.ActiveDevices | app/Components/DeviceSelectionModal.tsx:66-67 | every listed device is active and comes from the list; every active device is listed |
| DeviceSelection.ActiveDevicesKeepsOrder | app/Components/DeviceSelectionModal.tsx:66-68 | filtering a concatenation concatenates the filtered parts, so the original order is kept |
| DeviceSelection.SelectRow | app/Components/DeviceSelectionModal.tsx:66-88 | row k's button reports the id of the k-th active device, which is a listed, active device |
| Profile.MessageOr | app/Components/Profile/Profile.tsx:50 | the message when it is truthy, the fallback otherwise |
| Profile.Settle | app/Components/Profile/Profile.tsx:42-61 | the branches on the reply: success with a user replaces the user; 403 sets user and error from the reply; 400 opens the logged-out dialog; anything else sets the message or "Failed to fetch user data"; a network failure sets "Network error occurred" unless logging out; loading ends unless logging out; the latch and polling are untouched |
| Profile.FetchStep | app/Components/Profile/Profile.tsx:32-62 | no change at all without an email or with the latch set; otherwise loading ends and the error is first cleared; a user reply replaces the user; a 403 sets user and error from the reply; a 400 opens the dialog; any other reply sets its message or "Failed to fetch user data"; a network failure sets "Network error occurred"; except for the 400, the dialog stays as it was |
| Profile.LatchedSettleKeepsLoading | app/Components/Profile/Profile.tsx:52-60 | a reply arriving after the latch is set leaves loading as it was, and a failure changes nothing |
| Profile.AuthChangeStep | app/Components/Profile/Profile.tsx:64-74 | nothing while Auth0 loads; loading ends when unauthenticated; otherwise exactly a fetch |
| Profile.SyncPollingStep | app/Components/Profile/Profile.tsx:76-92 | an interval is installed iff authenticated, with an email, the logged-out dialog closed and the latch unset; nothing else changes |
| Profile.PollTickStep | app/Components/Profile/Profile.tsx:85-89 | a tick with no interval, or with the latch set, changes nothing; otherwise it is a fetch |
| Profile.LogoutRequestOf | app/Components/Profile/Profile.tsx:94-99 | a logout request is sent iff there is a user, for that user's id and the given device |
| Profile.DeviceLogoutStep | app/Components/Profile/Profile.tsx:94-111 | no change without a user; otherwise loading ends; a refusal sets the message or "Failed to logout device"; a network failure sets "Network error occurred"; a success is followed by exactly the re-fetch |
| Profile.LogoutCurrentDeviceStep | app/Components/Profile/Profile.tsx:134-142 | with a user: the latch is set and `logout` called, and the user and the dialog stay as they were; a refused logout sets its message or "Failed to logout device", a network failure "Network error occurred", and a success keeps the error; without a user, nothing changes |
| Profile.LogoutCurrentDeviceIgnoresRefetch | app/Components/Profile/Profile.tsx:134-142 | the latch is set before the logout, so the re-fetch reply never matters |
| Profile.ReloginStep | app/Components/Profile/Profile.tsx:144-147 | sets the latch, calls `logout`, changes nothing else |
| Profile.StepRespectsLatch | app/Components/Profile/Profile.tsx:30-147 | no event resets the latch; once it is set, no event installs an interval, and every event other than the reply of a fetch already in flight leaves the user and the dialog alone |
| Profile.LatchedReplyStillLands | app/Components/Profile/Profile.tsx:42-48 | the `try` block ignores the latch: after it is set, a 400 reply still opens the logged-out dialog and a successful reply still replaces the user |
| Profile.LatchSilencesRun | app/Components/Profile/Profile.tsx:30-147 | over any sequence of events the latch stays set and no interval is installed; over a sequence with no reply to an earlier fetch, the user and the dialog also stay fixed |
| Profile.LogoutThenSilence | app/Components/Profile/Profile.tsx:134-147 | after either logout handler the latch stays set whatever follows; the user stays fixed unless a reply to an earlier fetch arrives |
| Profile.ProfileComponent.constructor | app/Components/Profile/Profile.tsx:25-30 | no user, loading, no error, dialog closed, latch unset |
| Profile.ProfileComponent.BeginFetch | app/Components/Profile/Profile.tsx:32-37 | proceeds iff there is an email and the latch is unset; it then turns loading on and clears the error |
| Profile.ProfileComponent.FinishFetch | app/Components/Profile/Profile.tsx:42-61 | updates the state to exactly `Settle` of the state as it is when the reply arrives |
| Profile.ProfileComponent.FetchUserData | app/Components/Profile/Profile.tsx:32-62 | the state becomes exactly `FetchStep` |
| Profile.ProfileComponent.OnAuthChange | app/Components/Profile/Profile.tsx:64-74 | the state becomes exactly `AuthChangeStep` |
| Profile.ProfileComponent.SyncPolling | app/Components/Profile/Profile.tsx:76-92 | the state becomes exactly `SyncPollingStep` |
| Profile.ProfileComponent.PollTick | app/Components/Profile/Profile.tsx:85-89 | the state becomes exactly `PollTickStep` |
| Profile.ProfileComponent.HandleDeviceLogout | app/Components/Profile/Profile.tsx:94-111 | sends `LogoutRequestOf`, and the state becomes exactly `DeviceLogoutStep` |
| Profile.ProfileComponent.HandleLogoutCurrentDevice | app/Components/Profile/Profile.tsx:134-142 | sends `LogoutRequestOf`, and the state becomes exactly `LogoutCurrentDeviceStep` |
| Profile.ProfileComponent.HandleRelogin | app/Components/Profile/Profile.tsx:144-147 | the state becomes exactly `ReloginStep` |

## Left out

- Persistence: MongoDB and Mongoose I/O, connection setup, server start-up, CORS and `timestamps` are not modelled (server/server.js is not part of this model). The collection is an in-memory sequence, and `save` replaces the whole record.
- Request bodies: `userId`, `deviceId` and `deviceName` are taken to be strings. A non-string truthy `deviceId` (a JSON number such as 42) would never equal a stored id under `===`, Mongoose would store it as the string "42", and a repeat request would append a duplicate; `AuthMiddleware.AdmitKeepsIdsDistinct`, `AuthMiddleware.AdmitAllKeepsInvariant` and `AuthMiddleware.ManageDevicesKeepsInvariant` hold for string inputs only.
- Query parameters: the `email` of `GET /user` is taken to be a string (`UserRoute.GetUserStep` types it so). Express's query parser can also yield an array (`?email=a&email=b`) or an object (`?email[$ne]=x`). Either is truthy and passes the 400 check. `findOne` then treats an object as a query operator and can answer another account's record. An array matches any of its values, or `create` rejects it. None of this is modelled.
- Device entries: Mongoose gives every entry of `devices` its own `_id`, which `GET /user` returns. `UserSessionSchema.Device` has only the schema's two fields.
- Concurrency: requests are modelled one after another. The server has no locking, and the model claims nothing about simultaneous first logins or simultaneous admissions.
- Server errors: a failing database call (the `catch` blocks answering 500) is not modelled. The one 500 the model does produce is a rejected `create`, for an empty or taken fresh `userId`.
- `uuidv4()` is the `freshId` parameter of `UserRoute.GetUserStep`.
- Remove-device, update-profile and a "limit reached" refusal have no server implementation. They are not modelled as server behaviour.
- `handleUpdateProfile`, app/Components/UpdateProfileModal.tsx, app/Components/LoggedOutModal.tsx, app/lib/sessionApi.ts, the fetch wrappers of app/lib/apiUtils.ts (only their types are used), rendering, styling, `formatDate`, routing and Auth0 are not modelled.
- Browser inputs to `generateDeviceId`: the canvas, `navigator`, `screen`, time-zone offset and `Math.random` are folded into one fingerprint parameter, given as UTF-16 code units. No stability of the id across calls is claimed, because the fingerprint includes the previously stored id.
- `fetchUserData` and `handleLogoutCurrentDevice` also call `getDeviceInfo`, which writes a newly generated id to local storage. The server ignores the device fields of the fetch request. These writes are not part of `Profile.FetchStep` or `Profile.ProfileComponent.HandleLogoutCurrentDevice`, which takes the id that call returns as its `deviceId` parameter.
- Timers and effect scheduling: the 60-second period and React's re-running of effects are not modelled. The caller re-runs `SyncPolling` when authentication, email or the dialog changes, and `PollTick` is one interval callback.
- `console.error` logging is not modelled.
- DeviceUtils.GetDeviceName: the regular-expression `i` flag is modelled as ASCII case folding. For these ASCII patterns this is exact, since no non-ASCII character canonicalises to an ASCII one.
- DeviceSelection.DeviceIcon: `toLowerCase` is modelled as ASCII case folding only. Non-ASCII letters in device names are not lower-cased.
- UserSessionSchema.Validate: `maxDevices` is an integer here. A JavaScript number may also be fractional or NaN, which is not modelled.
- Profile.Settle: the reply's `message` may be missing, although the TypeScript type declares it present. `errorCode` is compared as an integer.
