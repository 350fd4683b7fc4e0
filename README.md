# Referral system: referral codes, redemption and authentication, in Dafny

This project models the two services at the heart of a small Go referral
system. The **referral service** lets a user own one referral code of ten
characters drawn from a 62-symbol alphabet. The code can be read back,
expires lazily (it is checked when read), and can be deleted. A new user
registers *with* a code ("redemption"). That creates the user and appends a
referrer-to-referee link. The **auth service** registers users under a
unique email with a bcrypt-hashed password. It logs them in and issues a
JSON Web Token (RFC 7519) whose `exp` claim (section 4.1.4) lies three hours
ahead.

Layout, one module per file:

- `errors.dfy` (`Errors`): the error values with their exact messages, plus `Result`, `Outcome` and the three-way store `Lookup` (found / the store's "not found" error / any other failure).
- `entities.dfy` (`Entities`): `User`, `ReferralCode`, `Referral`; time as integer nanoseconds.
- `repositories.dfy` (`Repositories`): the users, referral-code and referral-link tables as classes whose fields the inserts and deletes reassign. The operations follow the Postgres implementations the services call.
- `auth_service.dfy` (`Auth`): `AuthService` with `RegisterUser`, `LoginUser` and the claims of `GenerateJWT`.
- `referral_code_service.dfy` (`Referrals`): code generation, the existing-code check (as written and corrected), and `ReferralService`.
- `scenarios.dfy` (`Scenarios`): whole flows on fresh stores, proved from the services' contracts and the specification functions they name.

How the outside world enters:

- The clock is the parameter `now` (nanoseconds). Durations are integer nanoseconds.
- `rand.Intn(62)` is a sequence of draws in `[0, 62)`.
- bcrypt is a `Hasher`: two function values, `hash(password, salt)` and `matches(password, hashed)`. The one property the services rely on, `matches(p, hash(p, s))`, is the predicate `Sound`. Every service invariant requires it.
- Each store call and the hash take an optional injected failure (`Option<string>`). Every error path the services test is therefore reachable. There are two exceptions, both listed under "Left out": a failure of JWT signing, and a failure in the middle of the referral-list row loop.
- HS256 signing is opaque: a login returns the claims the token would carry.

Where the stores would rely on the database schema, they refuse a second row
with the same email, the same code owner or the same code value
(`UniqueViolation`). The schema is not part of this model. Without these
rules the tables could not be keyed as the services read them.

## Model

| member | source | states |
|---|---|---|
| `Referrals.CharsetIndexed` | internal/services/referral_code_service.go:39 | the alphabet has 62 symbols and each symbol's position can be recovered from the symbol, so no symbol repeats |
| `Referrals.CodeOf` | internal/services/referral_code_service.go:44-48 | the code built from n draws has exactly n characters, and character i is `charset[draws[i]]` |
| `Referrals.GenerateReferralCode` | internal/services/referral_code_service.go:42-49 | the buffer filled in place yields a code of exactly `length` characters, all from the alphabet, namely the code of the draws |
| `Referrals.DrawsRoundTrip` | internal/services/referral_code_service.go:44-47 | reading the symbol indices back out of a generated code gives the draws, so different draws give different codes |
| `Referrals.CodeRoundTrip` | internal/services/referral_code_service.go:44-47 | every string over the alphabet is the code of exactly one sequence of draws, so uniform draws give uniform codes |
| `Referrals.AsWrittenNeverCreates` | internal/services/referral_code_service.go:54-61 | with the shipped store's lookup, the existing-code check as written never lets creation go on; for an owner without a code it fails with "referral code not found" |
| `Referrals.ExistingCodeCheckAsWritten` | internal/services/referral_code_service.go:54-61 | the check as written goes on to create a code only on a reply with neither a code nor an error |
| `Referrals.ExistingCodeCheck` | internal/services/referral_code_service.go:54-61 | the corrected check goes on exactly when the store reports "not found"; on a found code or any other error it decides as the code as written does |
| `Referrals.ReferralService.CreateReferralCode` | internal/services/referral_code_service.go:52-78 | error order: a lookup error is returned unchanged, then an existing code (expired or not) gives "referral code already exists for user", then an insert error is returned unchanged; a generated code that already exists gives the insert's `UniqueViolation`. On success the stored and returned record has the owner, a 10-character code over the alphabet, `ExpiresAt = now + expiresIn` with no sign check, and the store's next id, which then advances by one. On every failure the code table and its id counter are unchanged |
| `Referrals.ReferralService.DeleteReferralCode` | internal/services/referral_code_service.go:81-83 | a delete without a store error always succeeds, leaves the owner without a code and removes nothing else; deleting when there is no code changes nothing, so a repeated delete is idempotent; the id counter never moves |
| `Referrals.ReferralService.GetReferralCodeByUserID` | internal/services/referral_code_service.go:86-98 | returns the stored code exactly when the lookup succeeds and `ExpiresAt >= now`. Otherwise it returns the store's error or "referral code has expired"; the row is never removed |
| `Referrals.ExpiryIsStrict` | internal/services/referral_code_service.go:93 | a code is still returned at its exact expiry instant and refused as expired at any later instant |
| `Referrals.ReferralService.RegisterWithReferralCode` | internal/services/referral_code_service.go:101-126 | a code that does not resolve gives "invalid referral code" and an expired one "referral code has expired"; in both cases no user and no link are created, and neither id counter moves. Registration errors propagate with no user, no link and no id used up. After a registration, a failed link insert returns its error but the user stays. Success appends exactly one link (code owner, new user id), which also lands at the end of the owner's list. The code table is untouched, so the code can be redeemed again. Invariant kept: every referee is a registered user, and no user is the referee of two links |
| `Referrals.ReferralService.GetReferralsByReferrerID` | internal/services/referral_code_service.go:129-131 | an error exactly when the store fails; otherwise `ReferralsOf` of the link table: each link whose referrer is the given user, exactly as often as the table holds it, in table order, and no other link |
| `Auth.AuthService.GenerateJWT` | internal/services/auth_service.go:31-40 | the claims name the user (`user_id = user.ID`) and expire at `now` + 10800 seconds, in whole Unix seconds |
| `Auth.AuthService.RegisterUser` | internal/services/auth_service.go:43-69 | a found email gives "user already exists" with the store unchanged. Any lookup failure counts as "no such user". Success happens exactly when the email is absent and neither hashing nor the insert fails. It stores and returns `{fresh id, name, email, Hash(password)}` and adds exactly that id. Otherwise the error comes in source order (hash, insert, duplicate email) and the store is unchanged |
| `Auth.AuthService.LoginUser` | internal/services/auth_service.go:72-90 | succeeds exactly when the lookup returns the email and the password verifies against the stored hash, with the stored user and its claims. An email the lookup does not return gives "user not found"; a password that does not verify gives "invalid credentials"; no failure issues claims |
| `Auth.LoginAfterRegister` | internal/services/auth_service.go:43-90 | logging in with the email and password a registration stored succeeds, for that user, whose email matches |
| `Repositories.UserStore.CreateUser` | internal/repositories/postgres/user_repository.go:25-30 | the insert assigns the next id, adds exactly one row under the email and returns it, or fails and changes nothing |
| `Repositories.UserStore.GetUserByEmail` | internal/repositories/postgres/user_repository.go:33-41 | found exactly when there is no failure and the email is stored; a missing row is the error "user not found" |
| `Repositories.ReferralCodeStore.CreateReferralCode` | internal/repositories/postgres/referral_code_repository.go:25-30 | the insert assigns the next id and indexes the row by owner and by code value, or fails and changes nothing |
| `Repositories.ReferralCodeStore.GetReferralCodeByUserID` | internal/repositories/postgres/referral_code_repository.go:33-41 | found exactly when there is no failure and the owner has a row; a missing row is the error "referral code not found", not an absent value |
| `Repositories.ReferralCodeStore.DeleteReferralCodeByUserID` | internal/repositories/postgres/referral_code_repository.go:44-48 | without a failure the owner's row and its code index entry are gone, and deleting a missing row succeeds |
| `Repositories.ReferralCodeStore.GetReferralByReferralCode` | internal/repositories/postgres/referral_code_repository.go:50-59 | found exactly when the code value is stored, giving its owner and expiry; a missing row is the error "user not found" |
| `Repositories.ReferralStore.CreateReferralLink` | internal/repositories/postgres/referral_repository.go:22-26 | without a failure exactly one link is appended; with one the list is unchanged |
| `Repositories.ReferralStore.GetReferralsByReferrerID` | internal/repositories/postgres/referral_repository.go:29-48 | fails exactly on a store failure, otherwise returns `ReferralsOf` of the table, in which every link with that referrer appears exactly as often as in the table and no other link appears |
| `Repositories.ReferralsOf` | internal/repositories/postgres/referral_repository.go:37-47 | the list the row loop builds front to back is no longer than the table and holds exactly its links with the given referrer |
| `Repositories.ReferralsOfCounts` | internal/repositories/postgres/referral_repository.go:37-47 | by induction over the table: each link with the given referrer appears in the list exactly as often as in the table, every other link never, so no row is listed twice or dropped |
| `Repositories.ReferralsOfAppend` | internal/repositories/postgres/referral_repository.go:22-47 | by induction over the table: an inserted link appears at the end of its referrer's list, and every other referrer's list is unchanged |
| `Scenarios.RedeemAtExpiry` | internal/services/referral_code_service.go:52-131 | owner registers and creates a one-hour code; a referee redeems it exactly at expiry; the owner's list is then the single link to the new user |
| `Scenarios.DuplicatesAndDelete` | internal/services/referral_code_service.go:52-98 | a second registration with the same email is refused; a second code for the same owner is refused; after a repeated delete the owner's code is "referral code not found" |
| `Scenarios.RegisterThenLogin` | internal/services/auth_service.go:31-90 | register then log in with the same credentials gives a session for the stored user, expiring three hours later; a wrong password gives "invalid credentials" |

## Findings

| source | as written | input that shows it | evidently intended | confidence | as-written member | corrected member |
|---|---|---|---|---|---|---|
| internal/services/referral_code_service.go:54-61 | creation goes on only when the owner lookup returns neither a code nor an error, but the shipped store reports a missing row as an error (internal/repositories/postgres/referral_code_repository.go:36-40) | `CreateReferralCode(u, d)` for any user `u` without a code: the lookup yields "referral code not found", which is returned, so no code can ever be created | a missing code means "no code yet", and creation goes on | high; not executed | `Referrals.ExistingCodeCheckAsWritten`, `Referrals.AsWrittenNeverCreates` | `Referrals.ExistingCodeCheck`, `Referrals.ReferralService.CreateReferralCode` |

The rest of the model uses the corrected check. Under it an existing code
still blocks a new one even when it has expired, as the code as written
does.

Choices of the code that the model keeps:

- a zero or negative `expiresIn` is accepted;
- an expired code is never replaced automatically;
- login tells "user not found" apart from "invalid credentials";
- a failed link insert returns the store's raw error;
- a code collision is not retried: the insert fails with `UniqueViolation`.

## Left out

- Auth.AuthService.LoginUser: does not model a failure of `SignedString` (internal/services/auth_service.go:84-87), because HS256 signing is opaque here; once the password verifies, login always succeeds.
- Auth.AuthService.GenerateJWT: returns the claims only; the signed token string and the signing secret are not modelled.
- Referrals.GenerateReferralCode: takes `length` as a natural number; Go panics on a negative length, and no caller passes one.
- Referrals.ReferralService.CreateReferralCode: `now + expiresIn` is unbounded; the 64-bit range of `time.Duration` and `time.Time` is not modelled.
- Store-assigned ids are unbounded integers; the 64-bit range of Go's `int` and of the database serial columns is not modelled. The model's ids are consecutive, and a failed insert does not use one up. The database assigns ids itself (`RETURNING id`), and a sequence-backed column may skip values, for instance after an insert that violates a constraint.
- The rows of a `SELECT` without `ORDER BY` come back in insertion order; the database may use any order.
- The `created_at` and `updated_at` columns, the database `id` of a referral code read back by reverse lookup (always 0), `GetUserByID` (never called by the services) and the stale repository interface files are not modelled.
- Repositories.ReferralStore.GetReferralsByReferrerID, Referrals.ReferralService.GetReferralsByReferrerID: the row loop (internal/repositories/postgres/referral_repository.go:37-47) never calls `rows.Err()`. A failure during the query's iteration only ends the loop, so the source then returns the rows read so far, a prefix of `ReferralsOf` (possibly empty), with no error. The model reports every store failure as an error and otherwise returns the whole list.
- Repositories.UserStore.GetUserByEmail, Repositories.ReferralCodeStore.GetReferralCodeByUserID, Repositories.ReferralCodeStore.GetReferralByReferralCode: a missing row is modelled as the error text the stores return after comparing with `database/sql`'s `ErrNoRows` (internal/repositories/postgres/user_repository.go:37, referral_code_repository.go:37 and 54). The stores run on pgx (internal/repositories/postgres/referral_code_repository.go:11), whose no-rows error is a different value, so in the running program that comparison never holds: a missing row returns pgx's own error with an empty record. The services only test whether an error is present, so every decision they make is the same under either error; what differs is the message `GetReferralCodeByUserID` passes back. The Findings row holds either way, since pgx's error is also not nil.
- bcrypt internals, cost and the random salt are not modelled: the salt is a parameter and a hashing failure an injected fault.
- `time.Now()` and the random seed are not modelled: they are parameters.
- Concurrent requests and the check-then-insert races on email and code owner are not modelled: the model is sequential.
- HTTP controllers, JWT middleware, routes, configuration loading, migrations and process start-up are not modelled: they are transport and process plumbing around the two services.
