# Keyshare server: the user account, modelled in Dafny

This project models the account entity of the IRMA keyshare server
(`src/main/java/org/irmacard/keyshare/web/Users/User.java`). The keyshare server
holds half of a user's split private key and contributes a proof fragment with it.
The session and PIN checks that guard this are made by the callers of this class:
`generateCommitments` and `buildProofP` check neither, and neither do their models.
The model covers four parts:

- **PIN attempts and exponential lockout** (module `Backoff`, class `Users.User`).
  Every check raises the attempt counter. A correct PIN resets it to 0. From the third
  failure on, the account is locked for 60 · 2^(level−1) seconds, where the level is
  `max(0, counter − 2)`. The lockout is lifted only indirectly: once the counter is
  back to 0 the level is 0, and the remaining lockout is then 0 whatever date is stored.
- **Session validity** (`Users.User.SetSessionToken`, `IsValidSession`, `IsEnrolled`).
- **The proof-builder registry** (module `Proofs`, `GenerateCommitments`,
  `BuildProofP`). Builders, commitments and proofs are opaque values. The registry is
  the process-wide map from user id to that user's latest builder.
- **Keyset pagination of the audit log** (module `AuditLog`, `Users.User.GetLogs`).
  The pages run newest first, ten entries to a page, with a `next` and a `prev`
  timestamp cursor.

The key share is stored as hexadecimal text. Module `Hex` models writing it
(`BigInteger.toString(16)`) and reading it back (`new BigInteger(s, 16)`), and proves
that reading back what was written gives the original value.

The entity is a class whose fields the methods update, with field-level `modifies`
frames. The audit log is a `seq<LogEntry>` that `AddLog` appends to. Nothing external
is called. The clock (`now`), the configured session timeout and the
enrollment-check flag are parameters. So are two things the credential library
decides: the step in which it throws while setting up a builder, if any, and the
randomizers it draws. The
database queries of `getLogs` are specification functions over the log
(`AtOrBefore`, `After`, `Reverse`, `Take`). The queries order by timestamp only, so
rows that share a second come back in an order the database chooses. The model fixes
one such order: the descending query returns the log's own order reversed, so ties come
out newest-inserted first (see "Left out").

Behaviour of the code that the model keeps, as written:

- Session expiry is strict: the session is valid only while `lastSeen + timeout·60 > now`,
  so at `now = lastSeen + timeout·60` it has already expired.
- A correct PIN and `setEnabled(true)` do not clear the stored lockout date. They
  reset the counter, and a counter at level 0 makes the remaining lockout 0.
- A failed check logs `3 − counter` as the tries remaining, which is zero or negative
  once the account is locked. There is no clamping.
- `buildProofP` does not remove the registry entry (see Findings).
- `lastSeen` and `pinblockDate` are nullable columns, and unboxing a null throws.
  `isValidSession` computes both of its conditions before combining them. So on an
  account whose last-seen time was never set it throws (`Thrown(NullPointer)`), even
  when there is no token. `User.Valid()` states that a lockout date exists whenever the
  counter is at the threshold, so `getPinblockRelease` never throws. Every method
  keeps this invariant.
- `pow` is modelled for every `int` exponent, with Java's truncating `b / 2`. On
  b ≥ 0 it is a^b. On b < 0 it is a^|b|, so `pow(2, -1)` is 2. `incrementPinblock`
  called at level 0 would therefore store `now + 120`. That has no effect, because the
  remaining lockout at level 0 is 0. The one call site reaches it only at level ≥ 1.

## Model

| member | source | states |
|---|---|---|
| `Backoff.Pow` | src/main/java/org/irmacard/keyshare/web/Users/User.java:299-305 | the as-written `pow`, total on every int exponent; for a base of at least 1 the result is at least 1 |
| `Backoff.PowIsPower` | src/main/java/org/irmacard/keyshare/web/Users/User.java:295-305 | exponentiation by squaring equals the reference power a^b for every b ≥ 0, and a^-b for b < 0, where Java's truncating halving still terminates |
| `Backoff.Level` | src/main/java/org/irmacard/keyshare/web/Users/User.java:262-264 | the level is 0 exactly when the counter is below 3 tries, and otherwise equals counter − 2 |
| `Backoff.Duration` | src/main/java/org/irmacard/keyshare/web/Users/User.java:266-269 | from level 1 on, the lockout lasts 60 · 2^(level−1) ≥ 60 seconds; at level 0 the same expression gives 120 |
| `Backoff.DurationDoubles` | src/main/java/org/irmacard/keyshare/web/Users/User.java:266-269 | each further level exactly doubles the lockout, with no cap |
| `Backoff.FirstLockouts` | src/main/java/org/irmacard/keyshare/web/Users/User.java:262-269 | counters 3, 4 and 5 give levels 1, 2, 3 and lockouts of 60, 120 and 240 seconds |
| `Hex.NatToHex` | src/main/java/org/irmacard/keyshare/web/Users/User.java:54 | the magnitude's text is at least one character, every character is a lower-case hexadecimal digit, and there is no leading zero |
| `Hex.ToHex` | src/main/java/org/irmacard/keyshare/web/Users/User.java:54 | `toString(16)` starts with a minus sign exactly for a negative number, and what follows the sign is the magnitude's digits as `NatToHex` writes them (lower-case, no leading zero) |
| `Hex.ParseHex` | src/main/java/org/irmacard/keyshare/web/Users/User.java:173-175 | the empty text and a lone sign are rejected with NumberFormatException, and that is the only exception |
| `Hex.HexRoundTrip` | src/main/java/org/irmacard/keyshare/web/Users/User.java:173-175 | parsing the hexadecimal text written by `toString(16)` at line 54 gives back the same integer |
| `Users.User.constructor` | src/main/java/org/irmacard/keyshare/web/Users/User.java:49-63 | a new account has counter 0, is enabled, not enrolled, has no e-mail issued, holds no token, no lockout date and no log, satisfies the invariant, and its stored key share reads back as the given secret |
| `Users.User.VerifyPassword` | src/main/java/org/irmacard/keyshare/web/Users/User.java:75-77 | the password check is exact equality with the stored password |
| `Users.User.SetSeen` | src/main/java/org/irmacard/keyshare/web/Users/User.java:84-86 | last-seen becomes now; nothing else changes |
| `Users.User.SetSessionToken` | src/main/java/org/irmacard/keyshare/web/Users/User.java:79-82 | the token and last-seen = now are stored together; at that instant the new token is valid exactly when it is non-empty and the timeout is positive |
| `Users.User.IsValidSession` | src/main/java/org/irmacard/keyshare/web/Users/User.java:88-99 | it throws exactly when last-seen is null; otherwise it is true iff the stored token is non-empty and equal to the presented one and lastSeen + timeout·60 > now, with the boundary instant already expired |
| `Users.SessionTimeoutExample` | src/main/java/org/irmacard/keyshare/web/Users/User.java:88-99 | with token "abc" last seen at t and a 5-minute timeout: valid at t+299; expired at t+300 and t+301; a different token is refused |
| `Users.User.IsEnrolled` | src/main/java/org/irmacard/keyshare/web/Users/User.java:113-115 | with the enrollment check off every account counts as enrolled; with it on, only a flagged account does |
| `Users.User.PinTriesRemaining` | src/main/java/org/irmacard/keyshare/web/Users/User.java:169-171 | while the lockout level is 0 the tries remaining are positive and count exactly the further failures that lock the account (r − 1 more do not, r more do); from then on they are 1 − level, so zero or negative |
| `Users.User.GetKeyshare` | src/main/java/org/irmacard/keyshare/web/Users/User.java:173-175 | the only exception is NumberFormatException, and an empty stored text throws it; the constructor's contract shows a written key share reads back as the secret |
| `Users.User.PinblockRelease` | src/main/java/org/irmacard/keyshare/web/Users/User.java:273-279 | the remaining lockout is never negative and is 0 below the threshold whatever date is stored; above it, it is positive iff the date is still ahead, and then it is the seconds left |
| `Users.User.IsPinBlocked` | src/main/java/org/irmacard/keyshare/web/Users/User.java:281-283 | the account is blocked iff the counter is at the threshold and the stored date is after now |
| `Users.User.IsEnabled` | src/main/java/org/irmacard/keyshare/web/Users/User.java:285-287 | enabled iff the flag is set and either the counter is below the threshold or the lockout date is not after now, so a lockout ends by itself; a PIN-blocked account is not enabled |
| `Users.User.AddLog` | src/main/java/org/irmacard/keyshare/web/Users/User.java:199-205 | exactly one entry with the event, its optional parameter and the time is appended to the log |
| `AuditLog.AppendKeepsChronological` | src/main/java/org/irmacard/keyshare/web/Users/User.java:199-205 | appending an entry no older than the last keeps the log in timestamp order |
| `Users.User.ResetPinCounter` | src/main/java/org/irmacard/keyshare/web/Users/User.java:237-239 | the counter becomes 0 and the lockout invariant holds; nothing else changes |
| `Users.User.IncrementPinblock` | src/main/java/org/irmacard/keyshare/web/Users/User.java:266-271 | the lockout date becomes now plus the current level's duration and the lockout invariant holds; nothing else changes |
| `Users.User.CheckAndCountPin` | src/main/java/org/irmacard/keyshare/web/Users/User.java:144-167 | the result is true iff the PIN matches. On success: counter 0, lockout date untouched, one PIN_CHECK_SUCCESS entry, and not blocked at any time. On failure: counter up by exactly 1 and PIN_CHECK_FAILED with 3 − counter. Below 3 failures nothing else changes. From the 3rd failure the date becomes now + duration, PIN_CHECK_BLOCKED is logged with that duration, and the account is blocked and not enabled |
| `Users.User.SetEnabled` | src/main/java/org/irmacard/keyshare/web/Users/User.java:241-251 | the flag takes the value. Enabling resets the counter, logs IRMA_ENABLED and leaves the account enabled at every time. Disabling keeps the counter, logs IRMA_BLOCKED and leaves it not enabled at every time |
| `Proofs.BuilderRegistry.constructor` | src/main/java/org/irmacard/keyshare/web/Users/User.java:27 | the process-wide map from user id to builder starts empty |
| `Users.User.GenerateCommitments` | src/main/java/org/irmacard/keyshare/web/Users/User.java:177-182 | an unreadable key share throws NumberFormatException and changes nothing; a library exception in the builder's constructor changes nothing; one in `generateRandomizers` leaves only the instance reference set, to a builder without randomizers; one in `calculateCommitments` leaves the builder registered. Without an exception, a builder over the keys, the key share and the randomizers becomes this id's entry (other ids untouched, an earlier entry for this id replaced) and its commitments are returned |
| `Users.User.FailedCommitmentsStillAnswer` | src/main/java/org/irmacard/keyshare/web/Users/User.java:177-190 | when `calculateCommitments` throws, the caller gets the exception, yet a following challenge is answered with the builder and randomizers registered before it |
| `Users.User.BuildProofP` | src/main/java/org/irmacard/keyshare/web/Users/User.java:184-197 | with no entry for the id it throws UNEXPECTED_REQUEST and logs nothing. Otherwise it returns the proof of the registered builder for the challenge and logs one IRMA_SESSION entry. Either way the registry is left unchanged and only the instance reference is cleared |
| `Users.User.CommitThenAnswerTwice` | src/main/java/org/irmacard/keyshare/web/Users/User.java:192-193 | as written, after one GenerateCommitments two BuildProofP calls both succeed, using the same builder and randomizers for two challenges |
| `Users.User.BuildProofPOnce` | src/main/java/org/irmacard/keyshare/web/Users/User.java:184-197 | the corrected answer step: same result and log as BuildProofP, but the id's entry is removed from the registry |
| `Users.User.CommitThenAnswerOnce` | src/main/java/org/irmacard/keyshare/web/Users/User.java:192-193 | with the corrected step a second challenge for the same commitments throws UNEXPECTED_REQUEST |
| `Users.User.GetLogs` | src/main/java/org/irmacard/keyshare/web/Users/User.java:207-235 | the copying loop and the removal of the eleventh row yield exactly the page `Paginate` defines: at most ten entries from the log, at or before the cursor, newest first |
| `AuditLog.Paginate` | src/main/java/org/irmacard/keyshare/web/Users/User.java:207-235 | the page has at most ten entries, `next` is at or before the cursor and `prev` after it |
| `AuditLog.NewestAtOrBefore` | src/main/java/org/irmacard/keyshare/web/Users/User.java:208-211 | the first query returns at most `limit` rows, none after the cursor |
| `AuditLog.OldestAfter` | src/main/java/org/irmacard/keyshare/web/Users/User.java:215-218 | the second query returns at most `limit` rows, all after the cursor |
| `AuditLog.AtOrBefore` | src/main/java/org/irmacard/keyshare/web/Users/User.java:208-211 | the first query returns only entries at or before the cursor, and no more than the log holds |
| `AuditLog.After` | src/main/java/org/irmacard/keyshare/web/Users/User.java:215-218 | the second query returns only entries strictly after the cursor |
| `AuditLog.Split` | src/main/java/org/irmacard/keyshare/web/Users/User.java:207-218 | in a chronological log the two queries partition the log into a prefix and the rest |
| `AuditLog.PageEntries` | src/main/java/org/irmacard/keyshare/web/Users/User.java:220-230 | the page is the (at most) ten newest entries at or before the cursor: all from the log, none after the cursor |
| `AuditLog.PageNewestFirst` | src/main/java/org/irmacard/keyshare/web/Users/User.java:207-230 | the page is in non-increasing time order |
| `AuditLog.PageIsNewest` | src/main/java/org/irmacard/keyshare/web/Users/User.java:207-230 | no entry at or before the cursor that is left off the page is newer than an entry on it |
| `AuditLog.NextCursor` | src/main/java/org/irmacard/keyshare/web/Users/User.java:227-232 | `next` is present iff at least eleven entries are at or before the cursor. It is then the eleventh-newest timestamp: at or before the cursor and no later than any entry on the page |
| `AuditLog.NextSkipsNothing` | src/main/java/org/irmacard/keyshare/web/Users/User.java:227-232 | every entry at or before the cursor that is left off the page is at or before `next` |
| `AuditLog.LastPageComplete` | src/main/java/org/irmacard/keyshare/web/Users/User.java:227-232 | without `next`, the page holds every entry at or before the cursor |
| `AuditLog.PrevCursor` | src/main/java/org/irmacard/keyshare/web/Users/User.java:213-233 | `prev` is absent iff no entry is after the cursor. Otherwise it lies after the cursor and is the time of an entry of the window of up-to-ten oldest later entries, no entry of which is newer, so it is the newest of that window; every later entry outside that window is at least as new |
| `AuditLog.FirstPageExample` | src/main/java/org/irmacard/keyshare/web/Users/User.java:207-235 | for entries at seconds 1..25, the page at 25 is 25 down to 16 with next 15 and no prev |
| `AuditLog.SecondPageExample` | src/main/java/org/irmacard/keyshare/web/Users/User.java:207-235 | for the same log, the page at 15 is 15 down to 6 with next 5 and prev 25 |
| `AuditLog.OneSecondPageRepeats` | src/main/java/org/irmacard/keyshare/web/Users/User.java:207-235 | in a chronological log with a run of more than ten entries in one second t (entries of other seconds may come before and after it), the page at t holds ten entries, all of second t, and its `next` is t itself, so following it asks for the same page again and at most ten entries of that second can be reached; which ten (here the ten inserted last, newest first) depends on the tie order the model fixes |

## Findings

| source | as written | input that shows it | evidently intended | confidence | as-written member | corrected member |
|---|---|---|---|---|---|---|
| src/main/java/org/irmacard/keyshare/web/Users/User.java:192-193 | to "ensure that we can only answer one challenge", only the instance field `pbuilder` is set to null; the static `builders` map keeps the entry | `generateCommitments(keys)`, then `buildProofP(c1)` and `buildProofP(c2)` for the same user id: both return proofs built from the same randomizers | the entry is removed from `builders` when its challenge is answered, so the second call throws UNEXPECTED_REQUEST | not executed; high | `Users.User.CommitThenAnswerTwice` | `Users.User.BuildProofPOnce` |

`BuildProofP` models the code as written. `BuildProofPOnce` is the corrected step, and
`CommitThenAnswerOnce` shows that with it the second answer is refused.

## Left out

- Persistence (ActiveJDBC): `saveIt`, the string-keyed field accessors, `unregister`, and the database queries' own implementation. Fields are plain class fields, and the two queries are functions over the log.
- `setPinCounter`, `setEnrolled`, `setEmailAddressIssued`, `getEmailAddressIssued`, `getUsername`, `getID`, `getPIN`, `getSessionToken`: plain field accessors. They are fields of the class here. `setPinCounter` is used only through `CheckAndCountPin` and `ResetPinCounter`: an arbitrary external call could break `Valid()`, which the model does not allow.
- The cryptography of `ProofPListBuilder` (`generateRandomizers`, `calculateCommitments`, `build`). Builders, commitments and proofs are opaque values. The randomizers, and the step in which the library throws if it does, are parameters. `build` is taken not to throw.
- The second and third constructors (User.java:65-71): they draw the secret with `new BigInteger(255, new SecureRandom())`. The model's constructor takes the secret as a parameter, so a random secret is any value in [0, 2^255).
- `getPublicKey`'s lazy Gson deserialisation of the public key, and `getAsMessage`: JSON wrappers over unshown libraries. The public key is a plain field.
- `Hex.ParseHex`: accepts only ASCII digits. `Character.digit` also accepts other Unicode digit characters, which are not modelled.
- `System.currentTimeMillis()`, `KeyshareConfiguration` and the SLF4J logger. The clock, the timeout and the enrollment flag are parameters; logging is omitted.
- Concurrency: the static `HashMap` is shared by all request threads, and concurrent read-modify-write of the counter can lose updates. The model is sequential.
- `Users.User.GetLogs`: requires the log to be in timestamp order, which holds for logs appended at a non-decreasing clock (`AuditLog.AppendKeepsChronological`). For an unordered log the database would sort, while this model keeps log order.
- `AuditLog.NewestAtOrBefore`, `AuditLog.OldestAfter`: `orderBy(DATE desc)` and `orderBy(DATE asc)` leave rows of the same second in no guaranteed order. The model's order for ties (reverse insertion, and insertion) is a modelling choice. It decides which entries of a shared second are on a page and which is the eleventh row, though not the cursor timestamps.
- `Users.User.CheckAndCountPin`: one `now` stands for every clock read of the call. The source reads the clock separately in `incrementPinblock` (User.java:270), in `getPinblockRelease` (User.java:278) and for each log record's timestamp. So in the model the PIN_CHECK_BLOCKED parameter always equals the duration, while the source can log one second less when the clock ticks between the two reads.
- `Users.User.IsValidSession`: `getSessionTimeout() * 60` at User.java:95 is an `int` product that wraps for timeouts beyond 2^31/60 minutes; the model multiplies unbounded integers.
- `Backoff.Pow`: uses unbounded integers. Java's `long` product wraps around for very large levels.
- `Backoff.Duration`: uses unbounded integers. The `long` duration wraps around for very large levels.
- `Users.User.PinblockRelease`: does not model the `(int)` cast of the remaining seconds at User.java:278, which truncates differences beyond 32 bits.
- `Users.User.CheckAndCountPin`: the counter is an unbounded integer. Java's `int` counter would wrap after 2^31 attempts.
