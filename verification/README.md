# Device-bound login backend: the authentication state machine

This project models the core of a small Express/Mongoose backend for passwordless, device-bound
login. A user registers a mobile number against one device and a push (Firebase) token. The user
then proves possession with a one-time code, reports login outcomes, and swaps push tokens. Relying
websites then get an accept decision recorded in a trust ledger, one record per
`(mobileNumber, websiteId)`.

The two Mongoose collections, `users` and `websites`, are classes holding a sequence of documents in
insertion order. `findOne(filter)` is `Query.FindFirst`: the first document the filter matches. Each
controller handler is a method that takes the request body as a datatype and the clock as an explicit
`now` in milliseconds. It returns the HTTP status and the kind of message. Its postcondition states
the whole new state of the collection branch by branch, in the handler's order of checks. It also
states the store invariants the handler preserves: device ids unique among users, and at most one
trust record per `(mobileNumber, websiteId)`. The schemas' validators, required fields and defaults
are predicates and functions. Each validator is proved equal to an independent description of what
it accepts.

Modules, one per source file, plus three helpers:

- `Js`: `Option` (None is `undefined`/`null`) and JavaScript truthiness of strings and numbers.
- `Query`: `findOne` over a sequence.
- `Validators`: the `^\d{10}$` and e-mail patterns shared by both schemas.
- `UserModel`, `WebsiteModel`: the documents, schema validity, defaults and the collection classes.
- `UserController`, `WebsiteController`: the handlers.
- `ResponseUtil`: the response envelope.

## Model

| member | source | states |
|---|---|---|
| `Query.FindFirst` | controllers/userController.js:16 | `findOne` answers the position of a document the filter matches, no earlier document matches, and it answers none exactly when no document matches |
| `Validators.MobileNumberIsTenDigitNumeral` | model/userModel.js:8-11 | a string passes `^\d{10}$` iff it is the zero-padded ten-digit decimal numeral of some number below 10^10 (the website schema repeats the same validator at model/websiteModel.js:12-15) |
| `Validators.EmailValidatorMatchesPattern` | model/userModel.js:18-20 | the e-mail validator accepts exactly the strings `local "@" label "." … label "." top`: local non-empty over word chars, '-' and '.', at least one non-empty label over word chars and '-', and a top label of 2 to 4 such chars; so exactly one '@' |
| `UserModel.ValidUser` | model/userModel.js:3-55 | the user schema as declared: required fields present and non-empty, a ten-digit mobile number, an e-mail matching the pattern when present; a valid user's mobile number is a ten-digit numeral and its e-mail has the pattern's shape |
| `UserModel.NewUser` | model/userModel.js:43-46 | a new user document has `isVerified` false by default, and no code, expiry, login outcome, device name or website fields |
| `UserModel.UserSchemaRequiredFields` | model/userModel.js:3-55 | `email` is optional; `mobileNumber`, `deviceName`, `firebaseToken`, `timestamp`, `websiteId`, `websiteName` are each required (absent or empty fails) |
| `UserModel.DeviceIdUnconstrained` | model/userModel.js:29-31 | the schema places no constraint on `deviceId`: changing it never changes validity |
| `UserModel.SchemaAllowsSharedDevice` | model/userModel.js:29-31 | two valid users may share a device id, so uniqueness can only come from the controller check |
| `UserController.RegisterUser` | controllers/userController.js:6-32 | a missing or falsy `mobileNumber`, `countryCode`, `deviceId`, `firebaseToken` or `timestamp` gives 400 and no change; a device id any stored user already has gives 400 and no change; otherwise exactly the new document with the given fields is appended and returned with 201; device-id uniqueness is preserved |
| `UserController.RegistrationKeepsDeviceIdsUnique` | controllers/userController.js:16-19 | appending a user whose device id no stored user has keeps device ids unique |
| `UserController.RegisteredUserFailsSchema` | controllers/userController.js:22-29 | the document registration builds never satisfies the user schema as declared |
| `UserController.SendOtp` | controllers/userController.js:45-84 | missing fields give 400; no user with that mobile number and country code gives 404; both leave the store unchanged; otherwise the first such user alone gets code "9999", expiry `now` + 30 s and `isVerified` false, and the reply carries that same code; device-id uniqueness and the validity of every stored user are preserved |
| `UserController.CheckOtp` | controllers/userController.js:110-118 | the verdict is a mismatch exactly when the stored code differs from the given one; expired exactly when the code matches and `now` is after a stored expiry; accepted exactly when the code matches and there is no expiry or `now` is at or before it |
| `UserController.IssuedCodeWindow` | controllers/userController.js:60-69 | a freshly issued code is accepted at every instant up to issue time + 30 s and is expired after it |
| `UserController.ExpiryBoundaryInclusive` | controllers/userController.js:115-118 | the right code at exactly the expiry instant is accepted; one millisecond later it is expired |
| `UserController.WrongCodeReportedBeforeExpiry` | controllers/userController.js:110-118 | a wrong code is reported as invalid whatever the clock: the code check comes before the expiry check |
| `UserController.VerifyOtp` | controllers/userController.js:95-126 | checks in order: missing field 400, no user with the mobile number 404, code mismatch 400 invalid, `now` past expiry 400 expired, each with no change; on success only that user changes: verified, token replaced only by a truthy new one, code cleared; device-id uniqueness and the validity of every stored user are preserved |
| `UserController.VerifiedCodeCannotBeReplayed` | controllers/userController.js:121-124 | after a successful verification the same lookup finds the same user and every code, the used one included, is refused as invalid |
| `UserController.UpdatesKeepUserValid` | controllers/userController.js:66-71 | the documents `sendOTP`, `verifyOTP`, `authenticateUser` and `updateFirebaseToken` save keep a valid user valid (the token only ever replaced by a non-empty one), so none of those saves can fail the schema on a valid stored user |
| `UserController.SaveKeepsAllUsersValid` | controllers/userController.js:124 | saving a valid user in place keeps every stored user valid |
| `UserController.LoginMessage` | controllers/userController.js:156-159 | the login message is "logged in" exactly when the outcome is true and "authentication failed" exactly when it is false |
| `UserController.AuthenticateUser` | controllers/userController.js:136-161 | missing mobile number or device id, or a non-boolean outcome gives 400; no user matching both gives 404; otherwise only that user's `isAuthenticate` changes, to the given boolean, and the message follows it; device-id uniqueness and the validity of every stored user are preserved |
| `UserController.UpdateFirebaseToken` | controllers/userController.js:171-196 | missing fields give 400; no user with the device id 404; a stored token different from the old token 400; all with no change; otherwise only that user's `firebaseToken` changes, to the new token; device-id uniqueness and the validity of every stored user are preserved |
| `WebsiteModel.ValidWebsite` | model/websiteModel.js:4-18 | the website schema as declared: a non-empty `websiteId` and a ten-digit mobile number, which is then a ten-digit numeral |
| `WebsiteModel.SaveKeepsIdsAndValidity` | controllers/websiteController.js:32 | saving a valid record back under its own `_id` keeps ids distinct and every record valid |
| `WebsiteModel.InsertKeepsIdsAndValidity` | controllers/websiteController.js:56 | appending a valid record under an unused `_id` keeps ids distinct and every record valid |
| `WebsiteModel.NewWebsite` | model/websiteModel.js:22-25 | a new trust record has `isAuthenticate` false unless one is given |
| `WebsiteModel.WebsiteSchemaRequiredFields` | model/websiteModel.js:4-18 | `websiteId` and `mobileNumber` are required and the mobile number must have ten digits |
| `WebsiteModel.SchemaIgnoresDeviceAndTimestamp` | model/websiteModel.js:19-26 | validity depends neither on the optional `deviceId` nor on `timestamp`, which the schema does not declare |
| `WebsiteController.ResponseDataOmitsIdAndVersion` | controllers/websiteController.js:35-37 | the echoed record does not depend on `_id` or `__v` and keeps every other field |
| `WebsiteController.InsertKeepsTrustKeysUnique` | controllers/websiteController.js:46-56 | inserting a record when none exists for its key keeps one record per `(mobileNumber, websiteId)` |
| `WebsiteController.SaveKeepsTrustKeysUnique` | controllers/websiteController.js:23-32 | updating the found record in place keeps one record per key |
| `WebsiteController.FoundRecordIsOnlyOne` | controllers/websiteController.js:23 | with one record per key, the record `findOne` returns is the only one with that key |
| `WebsiteController.AuthenticatedKeepsWebsiteValid` | controllers/websiteController.js:27-30 | an accepted decision on an existing record changes only fields the schema does not check, so a valid record stays valid |
| `WebsiteController.InsertedRecordValidity` | model/websiteModel.js:4-18 | the record a first accepted decision inserts passes the website schema iff the request named a website and a ten-digit mobile number |
| `WebsiteController.AuthenticateWebsite` | controllers/websiteController.js:4-66 | no user with the mobile number: 404; that user has no device: 400; an existing record with a truthy action gets `isAuthenticate` true, `timestamp` `now` and the user's device, with nothing added; no record and a truthy action inserts exactly one authenticated record (201) under the fresh `_id`; after either write `findOne` for the key finds the written record; a falsy action writes nothing; one record per key and distinct `_id`s are preserved; every record stays valid when the request names a website and a ten-digit mobile number; every record left unauthenticated is an untouched old record |
| `ResponseUtil.Success` | utils/responseUtil.js:2-12 | `success(m, d)` has `isSuccess` true, message `m` and data `d`, stored as given |
| `ResponseUtil.Failure` | utils/responseUtil.js:14-16 | `failure(m, d)` has `isSuccess` false, message `m` and data `d` |
| `ResponseUtil.FailureWithoutData` | utils/responseUtil.js:14-16 | `failure(m)` with data omitted has data `null` |
| `ResponseUtil.FactoriesDifferOnlyInFlag` | utils/responseUtil.js:10-16 | for the same message and data, `success` and `failure` differ in `isSuccess` and nowhere else |

## Left out

- Save-time schema validation is not run inside the handlers, and neither are the `catch` blocks that answer 500: store operations are total. The schemas are separate predicates (`ValidUser`, `ValidWebsite`). `UserController.RegisteredUserFailsSchema` shows that the user schema as declared would reject every document `registerUser` builds, because it lacks the required `deviceName`, `websiteId` and `websiteName`. The other handlers' saves are proved to keep a valid stored document valid (`UserController.UpdatesKeepUserValid`, `WebsiteController.AuthenticatedKeepsWebsiteValid`), and the website insert is valid exactly when the request names a website and a ten-digit mobile number (`WebsiteController.InsertedRecordValidity`). So on a store valid in the model's sense those handlers' modelled replies are the program's replies, not a 500 (but see the `UserModel.ValidUser` line below on a `null` e-mail).
- UserModel.ValidUser: a `null` e-mail is modelled as absent and so accepted, but the schema's custom e-mail validator runs on `null` (Mongoose skips custom validators only for `undefined`) and rejects it, since the pattern tested against "null" fails. A stored user with a `null` e-mail would make every save of that user fail validation (500) where the model answers 200. `UserModel.UserSchemaRequiredFields`' "email is optional" holds only for an `undefined` e-mail for the same reason.
- Mongoose strict mode would drop the undeclared `countryCode`, `otpExpiration` and `isAuthenticate` user fields and the `timestamp` website field on save. The model keeps them, as the controllers read and write them.
- The schema casts `otp` to Number. The stored number 9999 is always `!==` to a string code, so the program answers "Invalid OTP" to every string code. The model stores and compares the code as a string.
- The `timestamps: true` fields `createdAt` and `updatedAt`, and the user document's `_id` and `__v`, are not modelled.
- An absent value in a `findOne` filter is modelled as matching documents whose field is absent. Mongoose's own handling of `undefined` filter values is not modelled.
- Request values are strings, millisecond numbers or booleans. Date strings passed to `new Date(timestamp)`, non-string codes and NaN are not modelled. `action` is reduced to its truthiness.
- `otpExpiration` is `now` + 30000 ms. Local-time `setSeconds` across a daylight-saving switch is not modelled.
- The `setInterval` countdown logging in `sendOTP` has no effect on state and is left out, as are `console` output and JSON shaping.
- Concurrent requests are not modelled: each handler is one atomic step.
- The route files, Firebase configuration and token utilities, and server bootstrap are wiring, file I/O or calls into libraries that are not part of this model. The handler names the user routes import but the controller does not export are not invented here.
- The fresh `_id` of an inserted trust record is the parameter `newId` of `AuthenticateWebsite`, because ObjectId generation is external. Its freshness, which ObjectId generation provides, is a precondition: `newId` differs from every stored `_id`.
