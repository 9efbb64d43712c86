# e-commercer-api: sessions, gates and service decisions in Dafny

This project is a Dafny model of the logic core of the e-commercer-api Go backend. It covers three parts:

- the session and authentication state machine kept in Redis;
- the two HTTP gates in front of the handlers;
- the decision logic of the user, store and billboard services, with their payload validators and domain mappers.

**How the model is built.**

- Redis is a map from key to value and time-to-live. Time is counted in ticks of one second.
- JSON Web Tokens are abstract values. A lawful codec turns them into text and back.
- The cryptography is reduced to two facts:
  - whether a signature checks out;
  - whether the key given to the verifier is the public key.
- The SQL repositories, the password hasher, the mailer, the one-time-code generator and the image uploader are not modelled. What they answer is a parameter.
- Every service operation returns its result and the Redis state it leaves. It also returns the ordered list of external calls it made. This is what lets a contract say that nothing was written, or that the session was not touched.
- A Go nil-pointer panic is the error value `NilDereference`.

**Modules, one per source component:**

| area | modules |
|---|---|
| errors and result types | `Results` |
| Go `strings` behaviour | `GoStrings` |
| `google/uuid` | `Uuids` |
| util/validators.go | `Validators` |
| domain packages | `DomainUser`, `DomainSession`, `DomainStore`, `DomainBillboard` |
| Redis | `RedisStore` |
| JWT | `Jwt` |
| util/token.go | `TokenUtil` |
| both session repositories | `SessionRepository` |
| the wired session service | `SessionService` |
| the legacy session service | `UserSessionService` |
| middleware/ | `Middleware` |
| services | `UserService`, `StoreService`, `BillboardService` |

**Notes on the code.** These behaviours of the code are modelled as they are:

- The legacy repository's `VerifyOTP` does not delete a matched code. The code stays matchable until its lifetime runs out (repository/user_session.go:153-178).
- There are two session services, and both are modelled:
  - service/session.go is the one wired at start-up (main.go:66-67);
  - service/user_session.go is the legacy one, used only by the `ResendCode` gate.
- The gates answer with an HTTP status and a body status that differ in two places:
  - 401 with body status 403 at middleware/middleware.go:51-57;
  - 403 with body status 401 at middleware/middleware.go:61-66.
- The `StoreService` interface declares `UpdateName(ctx, payload)` and has no `Delete` (domain/store.go:52-56). The implementation has `UpdateName(ctx, storeID, payload)` and `Delete(ctx, storeID)`. The model follows the implementation.

## Model

| member | source | states |
|---|---|---|
| GoStrings.TrimSpace | domain/user.go:110-126 | The result is a contiguous slice of the input, and everything cut off before and after it is white space. It neither starts nor ends with white space. |
| GoStrings.TrimSpacePadded | domain/user.go:110-126 | White space added before and after a text never changes its trim. |
| GoStrings.TrimSpaceIdempotent | domain/user.go:110-126 | Trimming twice gives the same result as trimming once. |
| GoStrings.Split | util/token.go:41-43 | Splitting gives one more piece than there are separators. No piece contains the separator. |
| GoStrings.JoinSplit | util/token.go:41-43 | Joining the pieces of a split gives back the original header. |
| GoStrings.SplitJoin | util/token.go:41-43 | Splitting the join of separator-free pieces gives back those pieces. |
| GoStrings.LastIndex | util/validators.go:22 | Gives the position of the last occurrence, or -1 when there is none. No occurrence follows the result. |
| GoStrings.ToLower | util/validators.go:22 | Keeps the length. Maps each ASCII capital to its lower-case letter, 'İ' (U+0130) to 'i' and the Kelvin sign (U+212A) to 'k'. |
| Uuids.Format | domain/store.go:96 | `UUID.String()` gives 36 characters. Dashes sit exactly at positions 8, 13, 18 and 23; every other character is a lower-case hex digit. |
| Uuids.Parse | service/session.go:200-203 | `uuid.Parse` accepts only the 32-, 36-, 38- and 45-character forms. Every accepted text is ASCII, so its length in characters is the length in bytes that Go switches on. The 38-character form is judged by its middle 36 characters, whatever ASCII characters wrap them; a wrapper outside ASCII is refused. A 45-character text without the `urn:uuid:` prefix is refused. Every failure is `ErrInvalidUuid`. |
| Uuids.ParseThenFormat | service/session.go:200-203 | A parsed 36-character text formats back to itself in lower case. |
| Uuids.ParseWrapped | service/session.go:200-203 | Any two ASCII characters around an id's text parse to that id; braces are not required. |
| Uuids.ParseFormat | service/session.go:195-203 | Parsing the text of an id gives the id back. This is the inverse of `Format`. |
| Uuids.FormatInjective | repository/session.go:175-178 | Distinct ids have distinct texts, so distinct users get distinct session keys. |
| Validators.IsNumeric | util/validators.go:12-15 | `^[0-9]+$` matches exactly a non-empty text of ASCII digits. |
| Validators.Extension | util/validators.go:22 | The extension is the lower-cased text after the last dot. It never contains a dot. A name without a dot is its own extension. |
| Validators.IsImageExtension | util/validators.go:25-31 | The whitelist loop finds the extension exactly when it is one of the seven accepted ones. |
| Validators.ValidateFile | util/validators.go:17-38 | A missing file gives "file required". Otherwise the file passes exactly when its extension is whitelisted; a failure is "invalid file type". |
| Validators.ValidateFileIgnoresCase | util/validators.go:22 | Upper-case file names are judged like their lower-case spelling. |
| Validators.ValidateFileUpperCase | util/validators.go:22-31 | Worked cases: `A.PNG` passes, because the extension is lower-cased before the whitelist search, and so does `a.GİF`, because `ToLower` turns 'İ' into 'i'. |
| Validators.ValidateFileNoDot | util/validators.go:22-31 | Worked case: `png` passes, because a name without a dot is its own extension. |
| Validators.ValidateFileLastDot | util/validators.go:22-31 | Worked case: `x.exe.jpeg` passes, because only the text after the last dot is judged. |
| Validators.ValidateFileRefusals | util/validators.go:22-31 | Worked cases that fail as "invalid file type": `photo.` and `x.png.exe`. Only the last dot counts. |
| DomainUser.ValidateUser | domain/user.go:128-132 | Both emails and the name are trimmed. The verdict holds exactly when all of these hold: the name has 1 to 75 characters; both emails are present, valid and equal; the password is strong; the confirmation equals the password. |
| DomainUser.ValidateUserIdempotent | domain/user.go:128-132 | Validating an already validated payload changes neither it nor the verdict. |
| DomainUser.ValidateUserSeesTrimmed | domain/user.go:110-115 | Surrounding white space on the trimmed fields never changes the verdict. |
| DomainUser.ValidateSignIn | domain/user.go:134-138 | Only the email is trimmed. The verdict needs a valid email and a non-empty password. |
| DomainUser.ValidateSignInIdempotent | domain/user.go:134-138 | Validating a validated sign-in payload changes neither it nor the verdict. |
| DomainUser.ValidateSignInIgnoresPadding | domain/user.go:134-138 | White space around the email changes neither the verdict nor the email looked up. |
| DomainUser.ValidateUpdateName | domain/user.go:145-149 | The name is trimmed. It is accepted exactly when it has 1 to 100 characters. |
| DomainUser.ValidateUpdateNameIgnoresPadding | domain/user.go:145-149 | White space around a new name changes neither the verdict nor the name stored. |
| DomainUser.ValidateUpdatePassword | domain/user.go:140-143 | Nothing is trimmed. The verdict needs an old password, a strong new one and a matching confirmation. |
| DomainUser.ValidateResendCode | domain/user.go:151-155 | The email is trimmed, and must be present and valid. |
| DomainUser.ValidateResendCodeIdempotent | domain/user.go:151-155 | Validating a validated resend payload changes neither it nor the verdict. |
| DomainUser.ValidateResendCodeIgnoresPadding | domain/user.go:151-155 | White space around the email changes neither the verdict nor the address the code goes to. |
| DomainUser.ValidateConfirmEmail | domain/user.go:157-161 | The code is accepted exactly when it is six ASCII digits. |
| DomainUser.ToUser | domain/user.go:163-172 | A new account has the given id, hash and clock reading, and the payload's name and email. The user name is the email, the account is unconfirmed and there is no avatar. |
| DomainUser.ToResponse | domain/user.go:174-181 | The public view's id parses back to the user's id. The password hash is not part of it. |
| DomainSession.SessionOf | repository/session.go:50-56 | The stored session record copies the token and the user's id, name, email and avatar. |
| DomainSession.SessionResponse | domain/user_session.go:46-53 | The session's public view carries an id text that parses back to the user id, and the session's name, email and avatar. |
| DomainSession.AsSession | service/store.go:39-42 | The `*domain.Session` type assertion succeeds exactly for a session value in the context. |
| DomainSession.AsUserSession | service/user_session.go:100-103 | The `*domain.UserSession` type assertion succeeds exactly for a legacy session value. |
| DomainSession.AsUserResponse | service/user.go:199-203 | The `*domain.UserResponse` type assertion succeeds exactly for a user-response value. |
| DomainStore.ValidateStore | domain/store.go:73-77 | The name is trimmed. It is accepted exactly when the trimmed name has 1 to 100 characters. |
| DomainStore.ValidateStoreNameUpdate | domain/store.go:79-83 | The same name rule applies. In addition, the zero UUID is refused as `required`. |
| DomainStore.ValidateStoreIdempotent | domain/store.go:65-77 | Validation is idempotent. A name with surrounding blanks gets the verdict of its trimmed form. |
| DomainStore.ValidateStoreNameUpdateIdempotent | domain/store.go:69-83 | Validating the rename payload twice is validating it once. |
| DomainStore.ToStore | domain/store.go:85-92 | The new store belongs to the given user. It has the payload's name, the fresh id and the clock reading. |
| DomainStore.ToResponse | domain/store.go:94-100 | The response's id parses back to the store's id. Name and creation instant are copied. |
| DomainStore.ResponseIdentifiesStore | domain/store.go:94-100 | A new store's response has the payload's name. Stores with distinct ids get distinct response ids. |
| DomainBillboard.Validate | domain/billboard.go:56-68 | The label is trimmed first. A struct-rule failure (label not 1 to 100 characters, or no image) is reported and stops the checks. Otherwise the result is the file check's verdict. |
| DomainBillboard.ValidateNeverReportsMissingFile | domain/billboard.go:56-68 | Because the struct rule runs first, "file required" never comes out of `Validate`. The only failures are the validation error and "invalid file type". |
| DomainBillboard.ValidateIdempotent | domain/billboard.go:52-68 | Validating a validated payload changes neither it nor the verdict. |
| DomainBillboard.ToBillboard | domain/billboard.go:70-78 | The label, store id and image URL come from the inputs. The id and creation instant are the fresh id and the clock reading. |
| DomainBillboard.ToResponse | domain/billboard.go:80-88 | The texts of the id and the store id parse back to them. The label, image URL and instant are copied. |
| RedisStore.TtlAfterSet | repository/session.go:127 | The expiry `SET` leaves: a positive duration sets it; -1 ns (`KeepTTL`) keeps the current one; every other duration leaves the key with no expiry. |
| RedisStore.Set | repository/session.go:64 | `SET` overwrites one key. Every other key is unchanged. It fails only when the client is down. |
| RedisStore.Get | repository/session.go:80 | An absent key gives `redis.Nil`. A present one gives its value. |
| RedisStore.TtlOf | repository/session.go:107 | `TTL` answers -2 for no key, -1 for no expiry, and otherwise the seconds left. |
| RedisStore.SetWithOwnTtl | repository/session.go:107-127 | Writing a live key back with its own `TTL` reply keeps its expiry. |
| RedisStore.Tick | repository/session.go:64 | When time passes, keys whose time runs out are evicted and the others count down. Values are untouched. |
| RedisStore.TickAdditive | repository/session.go:144 | Letting a then b seconds pass is the same as letting a + b pass. |
| Jwt.Sign | service/session.go:162-177 | An ES256 token with the given claims decodes back from its text. The text is non-empty and has no space. Signing fails only when the signer does. |
| Jwt.ParseVerified | middleware/middleware.go:44-51 | For tokens without time claims, a token is accepted exactly when it decodes, its method is ECDSA, the key is the public key and the signature checks out. A non-ECDSA method is `ErrorUnexpectedMethod`. |
| Jwt.ParseUnverified | service/session.go:180-183 | Decoding ignores the signature and the method. |
| Jwt.SignedVerifies | middleware/middleware.go:44-51 | Every token the service signs passes verification with the public key. |
| Jwt.PrivateKeyNeverVerifies | middleware/resendCode.go:36-50 | With the private key given to the verifier, no token passes. |
| TokenUtil.ExtractToken | util/token.go:38-47 | A header is accepted exactly when it contains one space. The result is the space-free text after it. Any other header is `ErrSessionNotFound`. |
| TokenUtil.ExtractTokenShape | middleware/middleware.go:82-91 | An accepted header is some one-word scheme, a space and the extracted token. |
| TokenUtil.ExtractTokenOf | middleware/middleware.go:82-91 | Any one-word scheme followed by a space-free token yields that token. |
| TokenUtil.IssuedClaims | util/token.go:23-28 | The signed claims are exactly id, name, email and avatarURL. There is no expiry claim. |
| TokenUtil.CreateToken | util/token.go:17-36 | The legacy signer fails when the private key file does not load. Otherwise its token decodes to the issued claims. |
| TokenUtil.ExtractUserIdFromToken | util/token.go:49-76 | The key file is loaded first and the signature is verified next. The string `id` claim is then returned as it is. A verified token without one is `ErrTokenInvalid`. |
| TokenUtil.CreateThenExtract | util/token.go:17-76 | A legacy token gives back the text of the user's id. |
| SessionRepository.TokenKey | repository/session.go:175-178 | The session key is `usersession_` followed by the id. |
| SessionRepository.OtpKey | repository/session.go:180-183 | The code key is `usersession_OTP_` followed by the email. |
| SessionRepository.KeysInjective | repository/session.go:175-183 | Distinct ids, and distinct emails, get distinct keys. |
| SessionRepository.TokenKeyNotOtp | repository/session.go:175-183 | A user's session key is never a code key. |
| SessionRepository.KeySpacesDisjoint | repository/session.go:175-183 | A session key and a code key never coincide. |
| SessionRepository.Create | repository/session.go:42-70 | The user's session is stored under its key with the configured lifetime, replacing any earlier one. Every other key is unchanged. |
| SessionRepository.GetUser | repository/session.go:72-97 | An absent key is `ErrSessionNotFound` and transport errors pass through. The record read is the one stored. |
| SessionRepository.UpdateAsWritten | repository/session.go:99-134 | The refreshed record is written back with the expiry the key had. A key that is gone comes back with no expiry. |
| SessionRepository.Update | repository/session.go:99-134 | The corrected refresh keeps the set of keys and the key's lifetime. A key that is gone is `ErrSessionNotFound`. |
| SessionRepository.SaveOTP | repository/session.go:136-151 | The code is stored under the email's key with the code lifetime, replacing any earlier code. |
| SessionRepository.GetOTP | repository/session.go:153-173 | An absent key is `ErrOTPNotFound`. The code read is the one stored. |
| SessionRepository.VerifyOTP | repository/user_session.go:153-178 | A missing code, a mismatch and a match give three distinct answers. A match is exactly a stored code equal to the input. |
| SessionRepository.CreateThenGetUser | repository/session.go:42-97 | The record read back after `Create` is the one written. |
| SessionRepository.SessionExpires | repository/session.go:64 | A session answers for exactly its configured lifetime and is not found after it. |
| SessionRepository.OtpMatchesUntilExpiry | repository/user_session.go:153-178 | A code keeps matching for its whole lifetime, because nothing consumes it. It is not found after that. |
| SessionRepository.SaveOTPReplaces | repository/session.go:144 | After a second save, only the newest code matches. |
| SessionRepository.UpdateKeepsLifetime | repository/session.go:107-127 | On a key with whole seconds of life left, `Update` neither extends nor resets the lifetime and equals the code as written. |
| SessionRepository.UpdateAsWrittenResurrects | repository/session.go:107-127 | The code as written, run on an expired key, stores a session that never expires. The corrected `Update` refuses. |
| SessionRepository.WritesKeepWellTyped | repository/session.go:42-151 | Every repository write, and the passing of time, keep sessions under their own user's key and codes under code keys. |
| SessionRepository.WellTypedReads | repository/session.go:90-94 | In a well-typed store the decode failures of the two reads cannot happen. The session under a user's key is that user's. |
| SessionService.Create | service/session.go:41-61 | The token is returned only once its session is stored. Either failure yields no token. The token has no space. |
| SessionService.ExtractUserId | service/session.go:179-213 | The unverified `id` claim is parsed as a UUID. A missing claim, a claim that is not a string, or an unparsable one is `ErrTokenInvalid`. |
| SessionService.ExtractIssued | service/session.go:162-213 | Extraction gives back the user id of every token this service signs. |
| SessionService.ExtractIgnoresSignature | service/session.go:180 | A broken signature or another method yields the same id. |
| SessionService.GetUser | service/session.go:63-94 | Extraction fails before the store is consulted. A missing session is `ErrSessionNotFound`, and any other repository error is returned unchanged. A stored session is accepted exactly when its token is the one presented. |
| SessionService.GetUserBadTokenIgnoresStore | service/session.go:71-75 | An unreadable token gets the same answer whatever Redis holds. |
| SessionService.CreateThenGetUser | service/session.go:41-94 | A fresh token resolves to the session just stored. |
| SessionService.SecondCreateRevokesFirst | service/session.go:88-91 | Single active token: after a second sign-in the first token is `ErrTokenInvalid` and the second is accepted. |
| SessionService.RefreshAsWritten | service/session.go:109-118 | A user row that is not found makes the code as written panic. Otherwise it runs the repository's update as written. |
| SessionService.Refresh | service/session.go:109-118 | The corrected refresh takes the user's current fields, keeps the token and the lifetime, and writes nothing back when the session is gone. |
| SessionService.UpdateAsWritten | service/session.go:96-121 | Without a `*domain.Session` in the context the answer is `ErrUserNotFoundInContext`. |
| SessionService.Update | service/session.go:96-121 | The same context guard, in front of the corrected refresh. |
| SessionService.UpdateMissingUser | service/session.go:109-115 | For a vanished user, the code as written panics and the corrected code reports `ErrUserNotFound`. |
| SessionService.UpdateKeepsToken | service/session.go:104-118 | After `Update`, the presented token resolves to the refreshed record. |
| SessionService.SaveOTP | service/session.go:123-139 | After a successful save the code reads back. |
| SessionService.GetOTP | service/session.go:141-160 | An absent code reads as the empty string. Every other error passes through. |
| SessionService.GetOTPAbsentLooksEmpty | service/session.go:150-153 | A caller cannot tell an absent code from a stored empty one. |
| UserSessionService.Create | service/user_session.go:37-57 | The token is returned only after it is stored. Failures of the key file, the signer or Redis yield no token. |
| UserSessionService.GetUser | service/user_session.go:59-90 | The id is extracted through the verified parse before any lookup. A missing session is `ErrSessionNotFound`, and any other repository error is returned unchanged; a different token is `ErrTokenInvalid`. |
| UserSessionService.BadSignatureRefused | service/user_session.go:67-71 | A badly signed token is refused before Redis is consulted. |
| UserSessionService.SecondCreateRevokesFirst | service/user_session.go:59-90 | Single active token, for the legacy service. |
| UserSessionService.UpdateAsWritten | service/user_session.go:92-117 | Only a `*domain.UserSession` context is accepted. The code as written then runs the refresh as written. |
| UserSessionService.Update | service/user_session.go:92-117 | The same context guard, in front of the corrected refresh. |
| UserSessionService.UpdateContextsExclusive | service/user_session.go:100-103 | The two services' `Update`s never accept the same context value. |
| Middleware.CheckLoggedIn | middleware/middleware.go:21-80 | Refusals come in this order: empty header (401), bad header shape (401), failed verification (401 with body 403), a missing session ("Session Expired", 403 with body 401), and any other lookup failure ("Unauthorized Access", 401), exactly when the lookup fails with an error that is not `ErrSessionNotFound`. The handler runs exactly when all checks pass, with the session whose token was presented. |
| Middleware.SchemeIgnored | middleware/middleware.go:82-91 | The scheme word of the header does not matter. |
| Middleware.BearerHeader | middleware/middleware.go:82-91 | `Bearer <token>` yields the token. |
| Middleware.SignInTwiceThroughGate | middleware/middleware.go:59-77 | Through the gate, a second sign-in turns the first token into "Unauthorized Access" while the new one opens the gate. |
| Middleware.SignInOpensGate | middleware/middleware.go:21-80 | A confirmed user's sign-in with the right password gives a token that opens the gate with the stored session. |
| Middleware.ExpiredSessionThroughGate | middleware/middleware.go:61-66 | Once its lifetime has run out, a session is answered "Session Expired" with HTTP 403. |
| Middleware.RedisDownThroughGate | middleware/middleware.go:59-74 | A validly signed token presented while Redis is unreachable is answered "Unauthorized Access" (401). |
| Middleware.ResendCodeGateAsWritten | middleware/resendCode.go:17-81 | An empty header goes to the handler with nothing in the context. A bad shape is 401 and a key file that does not load is 500. A well-formed header with a loading key file is always "Invalid Session" (401), so the lookup answers are never reached. |
| Middleware.ResendCodeGate | middleware/resendCode.go:17-81 | With the public key, a token passes exactly when it verifies and the legacy service accepts it. The handler then gets that session. A failed verification is "Invalid Session" (401). A lookup failure is "Session Expired" (403) exactly when it is `ErrSessionNotFound`, and "Unauthorized Access" (401) exactly otherwise. |
| Middleware.ResendCodeGateRefusesEveryToken | middleware/resendCode.go:36-58 | The gate as written refuses every non-empty header, even a freshly issued legacy token, which the corrected gate accepts. |
| UserService.SendConfirmationCode | service/email.go:40-106 | The code is saved before the mail is sent. A successful send leaves the code readable. A mail failure leaves the new code stored. |
| UserService.Create | service/user.go:45-79 | A taken email is refused before hashing, and a hash failure is `ErrHashingPassword`. Redis is never touched. Success needs a free email, a hash and a passing insert. The inserted row is `ToUser` of the payload and the hash. |
| UserService.CreateTwiceRefused | service/user.go:45-62 | Once a sign-up has inserted its row and the table answers that row for the email, a second sign-up with the same email is `ErrUserAlreadyExists`. It makes only the lookup and inserts nothing. |
| UserService.SignIn | service/user.go:81-129 | An unknown user is refused and a wrong password creates no session; a repository error passes through. A token is handed out only with the right password and resolves to the user's session. With the right password, a confirmed user gets the new session's token and no error whenever the session is stored. An unconfirmed user gets the token with `ErrEmailNotConfirmed` exactly when the code is generated and mailed; otherwise the code or mail error is returned without a token. |
| UserService.OtpSaveKeepsSession | service/user.go:111-121 | Saving a confirmation code leaves the new session valid. |
| UserService.WrongPasswordKeepsSession | service/user.go:100-103 | A failed password check leaves the user's held token working as before. |
| UserService.UnconfirmedMailFailureRevokes | service/user.go:105-117 | For an unconfirmed user whose mail fails, no token is handed out, yet the previous token is already revoked. |
| UserService.CheckEmailConfirmation | service/user.go:131-157 | The check passes exactly for an existing, confirmed account. |
| UserService.SignInErrorFreeIffConfirmed | service/user.go:81-157 | With the right password and the session stored, sign-in reports no error exactly when `CheckEmailConfirmation` passes for the same email. |
| UserService.UpdateNameAsWritten | service/user.go:159-189 | The code as written checks the context, then the same name, then the row update, then runs the session service's `Update` as written. Only a full success changes Redis. |
| UserService.UpdateNameVanishedUser | service/user.go:175-185 | For a renamed user whose row has vanished, the code as written panics after the row update and the corrected rename reports `ErrUserNotFound`. Redis is untouched in both. |
| UserService.UpdateNameExpiredSession | service/user.go:175-185 | When the session expired before the refresh, the code as written succeeds and stores the session with no expiry, so it still answers after any delay. The corrected rename reports `ErrSessionNotFound`. |
| UserService.UpdateNameAgreesOnLiveSession | service/user.go:159-189 | While the session is live and the user row exists, the rename as written and the corrected rename give the same result. |
| UserService.UpdateName | service/user.go:159-189 | The corrected rename: the same order of checks, in front of the corrected session refresh. Only a full success changes Redis. |
| UserService.ChangePassword | service/user.go:217-244 | A wrong old password is caught before the same-password check. A hash is written only for a new, different password. Success needs every step to pass. |
| UserService.UpdatePasswordAsWritten | service/user.go:191-245 | The code as written reads a `*domain.UserResponse` context, parses its id, and panics on a missing row. |
| UserService.UpdatePasswordAsWrittenNeverPasses | service/user.go:199-241 | The code as written never succeeds. Behind the login gate it fails at the first check. |
| UserService.UpdatePassword | service/user.go:191-245 | The corrected change reads the session context, reports a missing row, and then runs the shared tail. |
| UserService.UpdatePasswordBehindGate | service/user.go:217-244 | Behind the gate, the corrected change succeeds when every collaborator agrees. A wrong old password is reported as such. |
| UserService.GetUserInfo | service/user.go:247-261 | The result is the session's public view, or `ErrUserNotFoundInContext`. |
| UserService.ResendTarget | service/user.go:271-278 | The code goes to the session's email when there is a session, and to the payload's email otherwise. |
| UserService.ResendCodeAsWritten | service/user.go:263-293 | For an email with no account, the code as written panics. Otherwise the code is sent. |
| UserService.ResendCode | service/user.go:263-293 | The corrected resend reports an unknown email and then writes nothing. A success leaves the new code readable. |
| UserService.ResendUnknownEmail | service/user.go:280-286 | On the unauthenticated route, an unknown email panics in the code as written. The corrected code reports `ErrUserNotFound`, and neither writes. |
| StoreService.ApplyCall | repository/store.go:39-134 | The effect one repository call can have on the stores table: an insert adds its row, a soft delete removes it, and reads change nothing. |
| StoreService.Create | service/store.go:31-53 | Without a session nothing is written. The one insert is a store owned by the caller. The response carries the new id and name. |
| StoreService.GetAll | service/store.go:55-89 | The checks are the context, then repository errors, then a nil result (`ErrStoresNotFound`). The answer has the repository's length and order, store by store. |
| StoreService.Guard | service/store.go:99-118 | The store is returned exactly for a caller who owns an existing store. A stranger gets an error wrapping `ErrUnauthorizedAction`. |
| StoreService.UpdateName | service/store.go:91-127 | The context is checked before any repository call. A write happens exactly when the guard passes. |
| StoreService.Delete | service/store.go:129-165 | A delete happens exactly when the store exists and belongs to the caller. |
| StoreService.OthersStoresUntouched | service/store.go:115-121 | Rename and delete never change another user's store, nor any store but the target. A successful rename renames the target and a successful delete removes it. |
| StoreService.CreateAddsOwnStore | service/store.go:44-46 | `Create` can add only the caller's new store and keeps every existing one. Without a session it writes nothing. |
| BillboardService.Create | service/billboard.go:45-89 | The checks run in order: context, store exists, owner, upload, persist. The saved billboard carries the store id and the uploaded URL. |
| BillboardService.StrangerRefusals | service/billboard.go:69-72 | A stranger gets the bare `ErrUnauthorizedAction` here, not a wrapping of it. |
| BillboardService.SavedOnlyIntoOwnStore | service/billboard.go:58-88 | A billboard is only ever saved into a store the caller owns. |

## Left out

- The HTTP handlers, routing and request binding (api/handler/*), and dependency injection (`do.MustInvoke`, main.go) are framework plumbing. The gates are modelled from the header onwards. The `ResendCode` gate looks up a `UserSessionService` that main.go never registers, and api/handler/routes.go never mounts the gate. It is modelled as written all the same.
- The SQL repositories (repository/user.go, repository/store.go, repository/billboard.go), database connections and migrations are outside the model. Their answers are parameters, and a not-found row is `Missing`.
- The cryptography (ECDSA, bcrypt in secure/) is reduced to two facts: whether the signature checks out, and whether the password matches.
- The one-time code generator (secure/otp.go) is reduced to its result.
- The mail template and the mail client of service/email.go are reduced to one outcome.
- The Cloudflare image upload is a parameter. That client is not part of this model.
- JSON marshalling of sessions is taken as an exact round trip. Marshal errors cannot happen for these records and are not modelled.
- domain/session.go is not part of this model. The `Session` record follows the fields the repositories write.
- Jwt.ParseVerified: the library's check of the time claims (`exp`, `nbf`, `iat`) is not modelled. golang-jwt applies it when those claims are present, in v3 at middleware/middleware.go:44-51 and in v5 at util/token.go:55-61. So a validly signed token with a past `exp` is refused by Go and accepted by the model. Every token issued here carries none of these claims (`TokenUtil.IssuedClaims`), so issued tokens get the same answer.
- SessionService.ExtractUserId: this is a weaker contract. It models only the user id of `extractSessionFromToken`. The claims are also unmarshalled into a `Session`, and an error there does leave `GetUser`. That error is not modelled, because every token this service accepts was signed by it with string claims, which always unmarshal.
- GoStrings.ToLower: this is a weaker contract. It maps the ASCII capitals, U+0130 and U+212A, and keeps every other character. Go maps some other characters outside ASCII to other characters outside ASCII. That cannot change a whitelist verdict, because every whitelisted extension is ASCII.
- DomainUser.ValidateUser: this is a weaker contract. It treats the `email` rule as a parameter, because the library's regular expression is not modelled.
- DomainStore.ToResponse: this is a weaker contract. It keeps the creation instant, not its RFC 3339 text, because time formatting is not modelled.
- Redis answers `TTL` with the milliseconds left rounded to whole seconds, so a live key with less than half a second left answers 0. Time here moves in whole seconds, so that case is not modelled.
- SessionRepository.UpdateKeepsLifetime: this is a weaker contract. It covers only keys with whole seconds left. A live key whose `TTL` reply rounds to 0 is written back by `SET` with no expiry, as the Findings row on repository/session.go:107-127 records.
- config/config.go:17-31 declares no `SecretKeyPath` field, yet util/token.go:18,50 and middleware/resendCode.go:36 read `config.Env.SecretKeyPath`. The source as given does not compile. The model abstracts key loading into `KeyFiles` (whether each key file loads), so the path is not modelled.
- `time.Duration` arithmetic is not modelled. `TokenExp` hours and `OTPExp` minutes are converted to seconds without int64 overflow.
- Timing between the `TTL` read and the `SET` of `Update` is not modelled: Redis is sequential here.
- `ConfirmEmail` and the user_email service (domain/user_email.go) are not modelled. They sit outside the session and store core.
- The decode failure of the repositories' `GetUser` is not modelled as reachable: a value of the wrong kind under a key cannot occur in a well-typed store (`WellTypedReads`).
- SessionRepository.GetOTP: this is a weaker contract. Go returns whatever text is stored, so a session record under a code key would come back as its JSON text. The model answers `JsonDecode` there, because session JSON text is not modelled. The case cannot occur in a well-typed store (`WellTypedReads`).
- Logging (`slog`) is left out.
- gorm's soft delete (`DeletedAt`) is modelled as removal. Whether gorm answers "no rows" with a nil or an empty slice is the `GetAll` parameter's choice.

## Findings

| source | as written | input that shows it | evidently intended | confidence | as-written member | corrected member |
|---|---|---|---|---|---|---|
| service/user.go:199-203 | `UpdatePassword` asserts the context value to `*domain.UserResponse`, but the login gate stores a `*domain.Session` | any request behind `CheckLoggedIn`; even with a `UserResponse` there, the final session refresh fails after the hash was written | read the `*domain.Session`, as `UpdateName` does | high, not executed | UserService.UpdatePasswordAsWrittenNeverPasses | UserService.UpdatePasswordBehindGate |
| service/user.go:280-286 | `GetByEmail` returns `nil, nil` for an unknown email, and `*user` is dereferenced | `ResendCode` with an email that has no account | report `ErrUserNotFound` | high, not executed | UserService.ResendCodeAsWritten | UserService.ResendCode |
| service/session.go:109-115 | `GetByID` returns `nil, nil` for a vanished user, and `*user` is dereferenced | `Update` for a session whose user row was deleted, as in `UpdateName` after the row update (service/user.go:182) | report `ErrUserNotFound` | medium, not executed | SessionService.UpdateMissingUser | SessionService.Refresh |
| repository/session.go:107-127 | the `TTL` reply is handed to `SET`; for a key that expired in between it is -2 ns, which `SET` treats as no expiry | `Update` on a session key that is gone, or on a live key with less than half a second left (its `TTL` reply is 0); `UpdateName` reaches it at service/user.go:182 (`UserService.UpdateNameExpiredSession`) | refuse, or keep the lifetime | medium, not executed | SessionRepository.UpdateAsWrittenResurrects | SessionRepository.UpdateKeepsLifetime |
| middleware/resendCode.go:36-50 | the verifier is given the key from `LoadPrivateKey`, which the ECDSA verifier rejects as the wrong key type | any non-empty `Authorization` header, including a freshly issued token | verify with `LoadPublicKey` | high, not executed | Middleware.ResendCodeGateRefusesEveryToken | Middleware.ResendCodeGate |
