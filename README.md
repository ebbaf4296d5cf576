# Pricing, credential sign-in and seeding of a SaaS starter kit, in Dafny

This project models the three pieces of the starter kit's own logic that are
not presentation:

- **Prices** (`prices.dfy`): the closed plan price table (free, pro, ultra ×
  monthly, yearly, whole US dollars), `getPrice`, and `getSavings`, the
  yearly-savings percentage the pricing page shows. The arithmetic is exact:
  the monthly share of the yearly price is rounded to integer cents
  (`toFixed(2)`), and the percentage is rounded to the nearest integer,
  halves up (`Math.round`).
- **Authentication** (`auth.dfy`, with JavaScript value slots in
  `jsvalues.dfy`): the credentials provider's `authorize`, and the `jwt` and
  `session` callbacks. `undefined`, `null` and a value are kept apart,
  because the source maps `null` to `undefined` in some places and copies it
  as-is in others. The user table is a sequence of stored rows searched by
  e-mail or by id. The bcrypt comparison is a function parameter about which
  nothing is assumed. The token and `session.user` are classes whose fields
  the callbacks update in place. Each callback is proved against a pure
  function (`JwtResult`, `UserFromToken`), and the lemmas are stated about
  those functions. The session lifetime constants (`maxAge` of 30 days,
  `updateAge` of 24 hours) are `SessionMaxAge` and `SessionUpdateAge`, in
  seconds.
- **Seeding** (`seed.dfy`): the seed script's loop over three sample users.
  For each one it looks up the e-mail and creates the user only if nothing
  was found. The user table is a class holding a map from e-mail to row. The
  loop method is proved against `SeedAll`, a fold of insert-if-absent, and
  the seed's guarantees are lemmas about `SeedAll`.

## Model

| member | source | states |
|---|---|---|
| Prices.PriceTable | src/lib/prices.ts:8-21 | the table covers every plan; the free plan is exactly the one whose monthly price is 0 and its yearly price is 0 too; no yearly price exceeds twelve monthly payments |
| Prices.GetPrice | src/lib/prices.ts:29-31 | defined for every plan and interval, it returns exactly the table entry; a price is 0 exactly on the free plan |
| Prices.MonthlyCentsOfYearly | src/lib/prices.ts:41 | `+(yearly / 12).toFixed(2)` in cents: the cent amount nearest to a twelfth of the yearly price, never negative |
| Prices.GetSavings | src/lib/prices.ts:38-49 | a whole percentage between 0 and 100, zero exactly for the free plan |
| Prices.RoundHalfUp | src/lib/prices.ts:41-48 | the result is the integer nearest to num/den, with halves rounded up |
| Prices.RoundHalfUpBounded | src/lib/prices.ts:41-48 | rounding a fraction that lies between 0 and hi gives an integer between 0 and hi |
| Prices.Savings | src/lib/prices.ts:38-49 | a zero monthly price gives 0 and is never divided by; otherwise the result is the nearest integer to the percentage by which the cent-rounded monthly share of the yearly price undercuts the monthly price |
| Prices.MonthlyCentsBounds | src/lib/prices.ts:41 | when the yearly price is at most twelve monthly payments, the cent-rounded monthly share lies between 0 and the monthly price |
| Prices.SavingsBounded | src/lib/prices.ts:39-48 | with a positive monthly price and a yearly price at most twelve monthly payments, the savings lie between 0 and 100 |
| Prices.SavingsPositiveIff | src/lib/prices.ts:44-48 | for a positive monthly price, the savings are strictly positive exactly when the undercut is at least half a percent of the monthly price |
| Prices.SavingsCanRoundToZero | src/lib/prices.ts:39-48 | for arbitrary prices, a yearly price below twelve monthly payments can still show 0% (monthly 100, yearly 1199) |
| Prices.FreePlanIsFree | src/lib/prices.ts:4-12 | the free plan costs 0 for both intervals |
| Prices.PaidPlanPrices | src/lib/prices.ts:13-20 | pro is 7 monthly and 60 yearly; ultra is 10 monthly and 100 yearly |
| Prices.SavingsValues | src/lib/prices.ts:38-49 | free saves 0%, pro saves 29%, ultra saves 17% |
| Prices.PaidPlanSavingsPositive | src/lib/prices.ts:8-49 | every paid plan's yearly price is below twelve monthly payments, and its savings are in 1..100 |
| Prices.ProSavingsAreLargest | src/lib/prices.ts:38-49 | no plan saves more than pro, which the pricing page's "Save up to" figure relies on |
| JsValues.OrUndefined | src/lib/auth.ts:96-99 | `v ?? undefined`: the result is never null; null becomes undefined and any other value is kept |
| Auth.SessionLifetimes | src/lib/auth.ts:63-64 | `maxAge` is 30 days (2592000 s) and `updateAge` is 24 hours (86400 s), one thirtieth of `maxAge` |
| Auth.StoredPasswordOrEmpty | src/lib/auth.ts:41 | the stored password with the empty string as fallback: a truthy stored password is used as it is; a missing, null or empty one gives the empty string |
| Auth.FindByEmail | src/lib/auth.ts:29-33 | a found row is in the table and has that e-mail; when nothing is found, no row has it |
| Auth.FindById | src/lib/auth.ts:82-93 | a found row is in the table and has that id; when nothing is found, no row has it |
| Auth.FindByEmailUnique | src/lib/auth.ts:29-33 | in a table with unique e-mails, the lookup returns the very row that holds the e-mail |
| Auth.FindByIdUnique | src/lib/auth.ts:82-93 | in a table with unique ids, the lookup returns the very row that holds the id |
| Auth.Authorize | src/lib/auth.ts:24-58 | sign-in succeeds exactly when both credentials are non-empty, the e-mail's row exists, the row is active and the password check accepts the stored password (or "" when none is stored); on success id, e-mail, name, image and the four subscription fields are the row's, with null mapped to undefined |
| Auth.AuthorizeRejectsMissingCredentials | src/lib/auth.ts:25-27 | missing or empty e-mail or password gives null, whatever the store and the password check |
| Auth.AuthorizeOnlyActiveOwner | src/lib/auth.ts:29-46 | a successful sign-in names an active stored user with the submitted e-mail, whose password the check accepted |
| Auth.AuthorizeAcceptsActiveUser | src/lib/auth.ts:29-57 | conversely, in a table with unique keys, an active user whose password passes signs in as that user |
| Auth.AuthorizeNoPasswordChecksEmpty | src/lib/auth.ts:39-46 | a user with no stored password is checked against the empty string |
| Auth.WithUser | src/lib/auth.ts:68-77 | with no user the token is unchanged; with a user, id, e-mail, name, image and the four subscription fields become the user's; `sub` is kept |
| Auth.Refreshed | src/lib/auth.ts:80-105 | `sub` and `id` are kept; the token changes only on an `update` trigger with a truthy id that the store holds, and then no subscription field is null |
| Auth.JwtResult | src/lib/auth.ts:67-108 | `sub` is kept; a passed user's id becomes the token's id, otherwise the id is kept; without `update` the result is the sign-in step alone |
| Auth.UserFromToken | src/lib/auth.ts:110-119 | the session user's id is the token's `sub`; e-mail, name, image and the four subscription fields are the token's, unchanged by the casts |
| Auth.JwtSignInCopiesUser | src/lib/auth.ts:68-77 | when a user is passed and no update is triggered, the token's e-mail, id, name, image and four subscription fields are that user's, and `sub` is kept |
| Auth.JwtReadsStoreOnlyOnUpdate | src/lib/auth.ts:80-105 | without an `update` trigger and a truthy token id, the token does not depend on the store |
| Auth.JwtUpdateUnknownIdUnchanged | src/lib/auth.ts:95-104 | an update for an id the store does not hold leaves the token unchanged |
| Auth.JwtUpdateCopiesStoredUser | src/lib/auth.ts:95-103 | the update branch maps null to undefined in the subscription fields, copies name, e-mail and image as stored, and keeps `sub` and `id` |
| Auth.JwtRefreshIdempotent | src/lib/auth.ts:80-105 | refreshing twice from the same store gives the same token as refreshing once |
| Auth.Token.Jwt | src/lib/auth.ts:67-108 | the callback updates the token in place to `JwtResult` of its old claims and returns the same token object |
| Auth.SessionIdFromSub | src/lib/auth.ts:111 | the session user's id is the token's `sub` and does not depend on the token's `id` claim |
| Auth.SessionAfterSignIn | src/lib/auth.ts:109-121 | after a sign-in without update, the session shows the signed-in user's profile and subscription fields, with the id from `sub` |
| Auth.SessionCallback | src/lib/auth.ts:109-121 | when both the token and `session.user` exist, `session.user` is overwritten in place from the token; otherwise nothing changes; the same session object is returned |
| Seed.SampleUsers | prisma/seed.ts:12-31 | three sample users, all with the one hash; admin@example.com with role admin, then user@example.com and jane@example.com with role user |
| Seed.InsertIfAbsent | prisma/seed.ts:34-42 | the e-mail becomes a key; existing rows keep their values; an absent e-mail gets the new row |
| Seed.SeedAll | prisma/seed.ts:33-46 | after the loop the keys are the old keys plus the listed e-mails, and no old row is overwritten |
| Seed.SeedAllStep | prisma/seed.ts:33-46 | one more loop iteration is one more insert-if-absent on the table so far |
| Seed.SeedNewRows | prisma/seed.ts:12-46 | every row the seed adds sits under its own e-mail, carries the shared hash, and has role admin for admin@example.com and user otherwise |
| Seed.SeedAllContents | prisma/seed.ts:33-46 | with distinct e-mails, the seeded table's keys are the old keys plus the listed e-mails; old rows are kept; each absent listed e-mail holds its listed user |
| Seed.SeedAllPresent | prisma/seed.ts:12-46 | for any list of users, duplicates included, every listed e-mail is present after seeding |
| Seed.SeedAllNoOverwrite | prisma/seed.ts:34-45 | for any list of users, a row already present is never modified |
| Seed.SeedAllOthersUnchanged | prisma/seed.ts:38-42 | for any list of users, rows whose e-mail is not listed are not added, removed or changed |
| Seed.SeedAllAgain | prisma/seed.ts:33-46 | a second run whose e-mails the first run all seeded changes nothing, whatever rows it would have created |
| Seed.SeedTwice | prisma/seed.ts:10-46 | running the seed script twice, with a freshly salted hash on each run, gives the same table as running it once |
| Seed.SeedAllSize | prisma/seed.ts:12-45 | for any list of users, the number of rows created equals the number of distinct listed e-mails that were absent |
| Seed.SampleUsersFacts | prisma/seed.ts:10-31 | the three sample e-mails are distinct and are exactly admin@, user@ and jane@example.com; each sample carries the one hash; only admin@example.com has role admin |
| Seed.UserTable.FindUnique | prisma/seed.ts:34-36 | the lookup finds a row exactly when the e-mail is a key, and returns that row |
| Seed.UserTable.Create | prisma/seed.ts:39-41 | create adds the row under its e-mail, and fails without a change on a duplicate e-mail |
| Seed.SeedMain | prisma/seed.ts:6-49 | the table becomes `SeedAll` of the old table and the sample users; each sample e-mail is present; old rows are unchanged; each new row carries the shared hash, sits under its own e-mail, and has role admin for admin@example.com and user otherwise |

## Left out

- Floating point: `getSavings` is modelled with exact integer arithmetic. For whole-dollar prices, yearly/12 is never exactly halfway between two cents, so `toFixed(2)` and round-half-up agree. Floating-point representation error is not modelled.
- Prices.PaidPlanSavingsPositive: strict positivity is proved for the table's paid plans only. For arbitrary prices it does not follow from "yearly below twelve monthly payments" (see SavingsCanRoundToZero). SavingsPositiveIff states the exact condition.
- The OAuth providers (Google, GitHub), JWT signing and cookies, the `events` logging and `debug` flag are library behaviour and I/O. `token.sub` is set by the library and is taken as given.
- bcrypt: hashing is an opaque string (the seed's `hashedPassword`), and comparison is an arbitrary `compare` parameter. Each run of the seed hashes afresh with a new salt, so two runs are modelled with two unrelated hashes (SeedTwice).
- The store: Prisma is a sequence of rows (auth) or a map keyed by e-mail (seed). Asynchrony and store failures are not modelled. The seed's created row holds only the four fields the script passes. Columns filled from the Prisma schema's defaults (id, `active`, subscription fields) are not modelled.
- Seed.SeedMain: console output, `process.exit` and `$disconnect` are left out. A failing `create` would throw. In the model `Create` returns `false` instead, and the loop calls it only after a lookup found nothing.
- Session lifetimes: what the authentication library does with `maxAge` and `updateAge` (cookie expiry, idle timeout, token re-signing) is library behaviour; only the two configured values are stated (SessionLifetimes).
- Types given by `as string` / `as Date` casts in the `session` callback are unchecked in the source, and the model copies values unchanged.
