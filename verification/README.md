# Verification of the notes API

A Dafny model of the parts of the notes API whose guarantees are about whole runs, and
proofs of those guarantees.

* **Idempotency keys.** `IdempotencyStore` has the table and both claim/complete pairs.
  `NoteRequests` has the PUT and DELETE requests as processes that interleave statement by
  statement and may stop, or see a statement fail, anywhere. `NoteHandlers` has the handlers
  as straight code and shows that each is its own process run alone. `RequestProofs` has the
  results about all runs.
* **Refresh tokens.** `RefreshTokens` has the table and the four transactions.
  `RotationHistory` compares serial runs with a specification that keeps only an event log,
  `RotationFamilies` follows the chain of tokens of each login, `RotationLocks` runs the
  transactions concurrently under row locks and shows that every run is serialisable, and
  `RotationOvertaking` says which concurrent rotations escape a wipe.
* **Rate limiters.** `RedisCounters` has the counter behind the request limiter and the login
  limiter, against a scan of the request times. `BucketCache` has the in-process limiter and
  its eviction, against one bucket per host that is never evicted.
* **Notes.** `NotesStore` has the table and its statements, `Paging` the listing, and
  `Validators` the printed entity tags and the list handler.
* **Keys and sessions.** `KeySets` has the two JWT key loaders and the key choices,
  `AuthHandlers` the login, refresh and logout handlers with the middleware's checks, and
  `GoStrings` the string functions that the loaders rest on. `Arithmetic` has facts about
  products and the smaller of two numbers.

Objects that the code updates in place are classes whose methods are proved against
functions on values; the results about runs are lemmas about those functions. The clock,
drawn random tokens, driver errors and the order in which the database returns tied rows are
inputs. Time is whole seconds, except in the limiters.

Findings:

* `Idem.Claim` ignores commit errors. In every run at most one request per (user, key)
  executes, exactly if no such commit is ever lost or no two requests compete for a key
  (`OncePerKeyIff`, `LostCommitRunsTwice`).
* A reuse detection is meant to end all of a user's earlier tokens. Run one transaction at a
  time it does (`WipeIsPermanent`), unless the ignored DELETE fails (`WipeSurvivors`). Run
  concurrently, a rotation can still be granted after the wipe commits, with a clock that
  never goes back (`RotationOvertakesWipe`): exactly if it had already selected its unused
  row, which had then expired when the wipe read the clock (`OvertakesIff`).
* The signer, the middleware and logout use one secret exactly when the trimmed current id is
  listed and, should it be the empty id, all listed secrets are equal; or when nothing is
  listed and JWT_SECRET is set (`SignerAndVerifiersAgree`).
* Evicting idle buckets is invisible, each host is held to its rate, and is refused nothing that
  fits into it, exactly when a bucket refills within the time to live plus one tick
  (`EvictionInvisibleIff`, `RateIsBoundedIff`, `AllowsWhatFitsIff`).
* `UseAndRotate` is `Use` then `Issue` unless the drawn token already exists
  (`RotateRefinesUseThenIssue`).
* A page is empty exactly when its offset, in 64-bit arithmetic, is past the end
  (`PageIsEmptyIff`); a page number whose offset leaves that range can return the first page
  again (`HugePageWraps`).
* Pages always partition the matching notes, and there is one sorted order, exactly when
  nothing ties (`PagesPartitionIff`, `OrderIsUniqueIff`): for "oldest" and "updated", exactly
  when the timestamps differ (`WhenSortsTie`). With any tie, two consecutive pages of one note
  can show the same note (`TiesCanRepeat`).
* A refused Redis client that keeps trying stays refused, because every attempt renews the
  expiry (`RefusalLastsThroughTheBurst`); a request whose pipeline fails is let through.
* The middleware's float64 keeps a user id exactly if the id is a multiple of the distance
  between float64 values of its size (`ExactIff`); any other id is read as one whose own
  tokens say the same (`InexactIdIsConfused`), the first of them being 2^53 + 1
  (`LargeIdIsConfused`).

Migration 0007 makes the idempotency key unique by itself and runs before migration 0010,
which asks for uniqueness per user; the results on requests hold for both. The SQL that
internal/repos/tokens_test.go expects is not what the code issues; the code is followed.

## Model

| member | source | states |
|---|---|---|
| IdempotencyStore.IdempotencyKeys.Claim | internal/repos/idempotency_generic.go:10-45 | a claim inserts the open row only when it wins, and otherwise leaves the table alone and answers by hash, completion and stored text |
| IdempotencyStore.IdempotencyKeys.Complete | internal/repos/idempotency_generic.go:47-52 | stores the result once, only on an open row |
| IdempotencyStore.IdempotencyKeys.ClaimNote | internal/repos/idempotency.go:16-63 | the note-id claim wins exactly when no statement fails and nothing clashes; a failed commit undoes it, and after a read it is reported only where the hash matches and the row is complete |
| IdempotencyStore.IdempotencyKeys.CompleteNote | internal/repos/idempotency.go:65-71 | stores the note id once, only on an open row |
| IdempotencyStore.RowsSettle | internal/repos/idempotency_generic.go:47-52 | under any later inserts and completions a claim keeps its hash and a completed row never changes |
| IdempotencyStore.FirstCompletionDecides | internal/repos/idempotency_generic.go:35-44 | the variant that completes a row first decides it: in every continuation the other variant answers "in progress" |
| NoteHandlers.Notes.Claim | internal/handlers/notes.go:165-187 | the handler turns each claim answer into its reply, or goes on; an existing key is compared by the checksum of the body as read, or "delete" |
| NoteHandlers.Notes.Update | internal/handlers/notes.go:144-205 | the PUT handler does what its process, run alone, does; field by field: a bad body is refused, a new key changes the caller's live note and is completed with the reply, a known key is replayed or refused |
| NoteHandlers.Notes.Delete | internal/handlers/notes.go:207-254 | the DELETE handler does what its process, run alone, does; field by field: a new key marks the caller's live note and is completed with the note as it was, a known key is replayed or refused |
| NoteHandlers.PutPhase | internal/handlers/notes.go:192-204 | the process after a PUT's claim: update, read back, then complete only if both worked |
| NoteHandlers.DeletePhase | internal/handlers/notes.go:241-253 | the process after a DELETE's claim: read, delete, then complete only if both worked |
| RequestProofs.WinnerIsLogged | internal/repos/idempotency_generic.go:15-20 | the recorded winner of a key is a request of that key whose claim is in the log, and there is none otherwise |
| RequestProofs.RunKeepsInv | internal/handlers/notes.go:144-254 | in every reachable state of every interleaving the table rows are what the history of claims and completions says |
| RequestProofs.AtMostOneExecution | internal/handlers/notes.go:165-192 | at most one request per (user, key) ever enters the repository, and each request at most once, under every interleaving, stop and statement failure |
| RequestProofs.OncePerKeyIff | internal/repos/idempotency_generic.go:18-21 | for any requests, every run executes each (user, key) at most once exactly if no ignored commit is lost or no two well-formed requests share a key |
| RequestProofs.LostCommitRunsTwice | internal/repos/idempotency_generic.go:18-21 | if an ignored commit is lost, for every key a second request executes |
| RequestProofs.RepliesAgree | internal/handlers/notes.go:182-204 | all 200 bodies for one (user, key) are equal, were asked for with one hash, and are the reply of the winner, which did enter the repository |
| RequestProofs.AnsweredPutsSentOneBody | internal/handlers/notes.go:150-169 | two PUTs of one (user, key) that are both answered 200 sent bodies, cut at a mebibyte, with one checksum |
| RequestProofs.OtherRequestConflicts | internal/repos/idempotency_generic.go:31-34 | a retry is refused as a mismatch exactly if it does not ask for what the winner asked for: a PUT with that checksum, or a delete |
| RequestProofs.PutNeverReplaysDelete | internal/handlers/notes.go:166-218 | a PUT and a DELETE with one (user, key) are never both answered 200 |
| RequestProofs.ClaimIsHistoryOracle | internal/repos/idempotency_generic.go:15-44 | a claim wins exactly when nobody has won the key, and otherwise answers by what the winner asked for and whether its completion happened |
| RequestProofs.RetriesLeaveNoTrace | internal/handlers/notes.go:144-254 | dropping all steps of the keyed requests that did not win leaves the same notes, keys, winners and replies |
| RequestProofs.LoserStep | internal/repos/idempotency_generic.go:23-44 | no step of a losing request changes a table |
| NotesStore.Notes.Create | internal/repos/notes.go:95-105 | the new note is live under a fresh id for its user, with the given content |
| NotesStore.Notes.Get | internal/repos/notes.go:107-118 | finds the row exactly if it is the caller's and not deleted |
| NotesStore.Notes.Update | internal/repos/notes.go:120-130 | the caller's live note gets the new title and body, stamped exactly if one of them changed, and is returned; otherwise nothing changes and nothing is found |
| NotesStore.Notes.Delete | internal/repos/notes.go:132-143 | the caller's live note is returned as read before and marked deleted; otherwise nothing changes |
| NotesStore.TombstoneIsFinal | internal/repos/notes.go:124-141 | under every sequence of statements a deleted row never changes and is never read again |
| NotesStore.DeletedByOwnerOnly | internal/repos/notes.go:138-141 | under every sequence of statements a live row is deleted exactly by its owner's first delete of it, at that time |
| NotesStore.LastWriteWins | internal/repos/notes.go:124-125 | a note contains its owner's last write before its deletion, whatever else runs |
| NotesStore.RowsPersist | internal/repos/notes.go:95-143 | rows are never removed, and keep owner and creation time |
| NotesStore.UsersAreIsolated | internal/repos/notes.go:112-141 | a user's rows are what they would be without the other users' updates and deletes |
| Paging.ListFiltered | internal/repos/notes.go:46-93 | answers a slice of some sorted order of exactly the caller's live matching rows: each item is such a row, in the order the sort parameter names, and the total is their number |
| Paging.ItemsOfAnswer | internal/repos/notes.go:33-93 | the items and the total of any possible answer, by the fields of the rows |
| Paging.ItemCount | internal/repos/notes.go:50-76 | a page has exactly the rows left after its offset, up to the size, which is 20 if out of range |
| Paging.ListingIgnoresOthers | internal/repos/notes.go:57 | no statement of other users changes what a listing may answer |
| Paging.DeletedIsNotListed | internal/repos/notes.go:57 | a deleted note is in no later listing |
| Paging.WhenSortsTie | internal/repos/notes.go:33-44 | title and default sorts never tie; the other two tie exactly on equal timestamps |
| Paging.OrderIsUniqueIff | internal/repos/notes.go:70-76 | there is one sorted order exactly when nothing ties |
| Paging.OffsetInRange | internal/repos/notes.go:71 | the offset sent is (page-1)*size exactly when that fits in 64 bits |
| Paging.OffsetWraps | internal/repos/notes.go:71 | the offset is the product wrapped into the signed 64-bit range |
| Paging.PagesPartition | internal/repos/notes.go:57-93 | without ties the pages laid end to end are the sorted result, whatever order the database picks for each |
| Paging.PagesPartitionIff | internal/repos/notes.go:33-76 | for every size and every choice of the database the pages show each matching note exactly once, if and only if nothing ties |
| Paging.TiesCanRepeat | internal/repos/notes.go:35-38 | whenever something ties, some note may be the answer to two consecutive pages of one note |
| Paging.PageIsEmptyIff | internal/repos/notes.go:71-76 | a page is empty exactly when the 64-bit offset is past the end, with or without ties; so pages after the last are, while the offset is in range |
| Paging.HugePageWraps | internal/repos/notes.go:71 | a page number far out of range answers as the first page |
| Validators.CollETag | internal/handlers/notes.go:35-44 | prints the tag of the largest id, count, page, size and checksum |
| Validators.MaxIdIsMax | internal/handlers/notes.go:36-41 | the printed maximum is the largest id, or 0 |
| Validators.List | internal/handlers/notes.go:55-88 | answers 304 exactly when the client's tag is the current page's tag |
| Validators.NoteTagReadsBack | internal/handlers/notes.go:46-53 | a note's printed tag can be read back to its id, the second of its change (of its creation for the zero time) and digest prefix |
| Validators.CollTagReadsBack | internal/handlers/notes.go:35-44 | a listing's printed tag can be read back to its five fields |
| Validators.EqualNoteTags | internal/handlers/notes.go:46-53 | equal note tags mean equal id, second and digest prefix |
| Validators.NewNotesComeFirst | internal/repos/notes.go:41-43 | after creations the newest-first listing is the new notes followed by the old listing |
| Validators.EqualCollTags | internal/handlers/notes.go:77-81 | with the default sort and only creations in between, an unchanged tag means an unchanged page |
| RefreshTokens.RefreshTokens.Issue | internal/repos/refresh_tokens.go:13-19 | adds an unused row for the user under the drawn token, or nothing |
| RefreshTokens.RefreshTokens.Use | internal/repos/refresh_tokens.go:21-43 | a use is the whole transaction, with or without its DELETE, or, on an error, nothing |
| RefreshTokens.RefreshTokens.UseAndRotate | internal/repos/refresh_tokens.go:45-79 | a rotation is the whole transaction, with or without its DELETE, or, on any other error or a missing row, nothing |
| RefreshTokens.RefreshTokens.Revoke | internal/repos/refresh_tokens.go:81-84 | removes the token's row and no other |
| RefreshTokens.RotateRefinesUseThenIssue | internal/repos/refresh_tokens.go:13-79 | a rotation is a use followed by an issue exactly unless the drawn token exists |
| RefreshTokens.WipeSurvivors | internal/repos/refresh_tokens.go:63-64 | after a reuse detection a token of the user is still found exactly where it is unexpired and the wipe failed or its clock had passed the expiry; the presented token stays reported as reused |
| RotationHistory.TableRefinesHistory | internal/repos/refresh_tokens.go:13-84 | every transaction of every serial run answers as the event log says: dead, unknown or expired; spent; or good |
| RotationHistory.StandingMintIsStatus | internal/repos/refresh_tokens.go:52-68 | a mint that nothing ended since makes its token alive, spent exactly if it was spent since |
| RotationHistory.StatusHasStandingMint | internal/repos/refresh_tokens.go:52-68 | every alive token has such a mint |
| RotationHistory.ExecRefines | internal/repos/refresh_tokens.go:21-84 | one transaction on table and log gives one answer and keeps them in agreement |
| RotationHistory.SpecKeepsFate | internal/repos/refresh_tokens.go:58-68 | no transaction revives a token or moves it to another user |
| RotationHistory.WipeIsPermanent | internal/repos/refresh_tokens.go:52-68 | after a reuse detection whose DELETE worked no earlier token of the user is accepted in any serial continuation |
| RotationFamilies.FamiliesAreChains | internal/repos/refresh_tokens.go:13-78 | in every reachable state each login's tokens form one chain under one owner, with only the last possibly unused |
| RotationFamilies.RotationExtendsNewest | internal/repos/refresh_tokens.go:71-78 | a granted rotation presents the newest token of its family |
| RotationFamilies.UnusedAtMostLogins | internal/repos/refresh_tokens.go:13-19 | a user has at most as many unused tokens as logins |
| RotationFamilies.SessionNamesLoginUser | internal/repos/refresh_tokens.go:45-79 | a granted use or rotation answers with the user whose login, through granted rotations, led to the presented token |
| RotationFamilies.SessionIsUnique | internal/repos/refresh_tokens.go:71-78 | a token belongs to one login only, at one place of its rotations |
| RotationLocks.RunsAreSerializable | internal/repos/refresh_tokens.go:21-84 | every concurrent run, failing DELETEs included, has a serial order of its decided transactions with the same table and the same answers |
| RotationLocks.CommitIsAtomic | internal/repos/refresh_tokens.go:52-78 | at commit a transaction has written what the whole transaction writes at that moment |
| RotationLocks.AloneIsWhole | internal/repos/refresh_tokens.go:45-79 | an uninterrupted transaction is the whole transaction |
| RotationLocks.RotatedAtMostOnce | internal/repos/refresh_tokens.go:28-69 | of all concurrent uses and rotations of one token at most one is granted |
| RotationOvertaking.RotationOvertakesWipe | internal/repos/refresh_tokens.go:52-78 | a run with rising clock readings in which a rotation is granted after the wipe of its user has committed |
| RotationOvertaking.OvertakesIff | internal/repos/refresh_tokens.go:52-78 | after a wipe in any concurrent run an earlier token can be granted exactly to a transaction that had selected its unused row, expired at the wipe |
| RedisCounters.RedisLimiter.Serve | internal/middleware/rlredis.go:31-53 | an exempt request is served uncounted; any other is counted, renews the expiry and is served up to the limit, or is let through if the pipeline fails |
| RedisCounters.Brute.Allow | internal/security/brute.go:35-47 | allowed up to the limit with the exact remainder, and otherwise refused with the renewed time to live; a failed pipeline counts as none |
| RedisCounters.CounterTracksHistory | internal/middleware/rlredis.go:40-45 | the counter of each key is the length of its current burst and expires a window after its last request |
| RedisCounters.CountIsBurstLength | internal/middleware/rlredis.go:40-51 | a request gets the number of its key's requests since the last gap longer than the window, and is served exactly if that is within the limit |
| RedisCounters.WindowAdmitsAtMostLimit | internal/middleware/rlredis.go:46-51 | no interval as long as the window serves more than the limit, exempt requests and failed pipelines aside |
| RedisCounters.RefusalLastsThroughTheBurst | internal/security/brute.go:35-46 | after a refusal a key stays refused until a gap longer than the window |
| BucketCache.Limiter.Get | internal/middleware/ratelimit.go:23-34 | gives the host's bucket, new if it has none, and stamps it |
| BucketCache.Limiter.Allow | internal/middleware/ratelimit.go:51-63 | takes one token from the host's bucket and touches no other host |
| BucketCache.Limiter.Cleanup | internal/middleware/ratelimit.go:41-49 | removes exactly the entries idle for longer than the time to live |
| BucketCache.EvictionInvisibleIff | internal/middleware/ratelimit.go:23-49 | every decision equals that of the host's own bucket, never evicted, exactly when a bucket refills while idle |
| BucketCache.AllowsWhatFitsIff | internal/middleware/ratelimit.go:51-63 | in every run a request is allowed exactly if, with the host's earlier allowed ones, no interval ending now exceeds the capacity and the refill; this holds exactly if idle buckets refill |
| BucketCache.CacheMatches | internal/middleware/ratelimit.go:23-49 | after every run each host's entry, or its absence, behaves as the host's own bucket |
| BucketCache.RateIsBounded | internal/middleware/ratelimit.go:23-61 | in every run, a host is allowed in any interval at most the capacity and the refill of the interval, if idle buckets refill |
| BucketCache.RateIsBoundedIff | internal/middleware/ratelimit.go:41-61 | the rate holds in every run, for every host and interval, exactly if idle buckets refill |
| KeySets.Load | internal/jwtauth/keys.go:13-43 | the verifier's set is the listed entries, or the default entry if there are none; the current id is the given one or some listed one |
| KeySets.LoadFromEnv | internal/jwtauth/load.go:14-35 | the signer's provider, with the fallback secret under the current id |
| KeySets.ParsersAgree | internal/jwtauth/load.go:19-27 | both parsers read the same entries from every JWT_KEYS value |
| KeySets.ListedIff | internal/jwtauth/keys.go:17-29 | JWT_KEYS gives an id exactly the secret of the last piece that is this id, a colon and a secret |
| KeySets.SignerAndVerifiersAgree | internal/middleware/auth.go:37-47 | signer, middleware and logout use one secret exactly for the usable environments |
| KeySets.UnlistedCurrentKidDisagrees | internal/handlers/auth.go:186-196 | with an unlisted current id the signer signs with the empty secret and logout rejects |
| KeySets.AppendedKey | internal/jwtauth/keys.go:17-29 | appending a printed entry to any JWT_KEYS value adds that entry and keeps the rest |
| KeySets.KeyListRoundTrip | cmd/jwtkeygen/main.go:17 | loading a joined list of printed entries gives exactly those entries |
| KeySets.RotationKeepsOldKeys | internal/middleware/auth.go:37-47 | after appending a key and making it current, older ids keep their secrets and new tokens use the new one everywhere |
| GoStrings.SplitTrimSpace | internal/jwtauth/load.go:15-22 | trimming the list before splitting changes no trimmed piece |
| GoStrings.SplitThenJoin | internal/jwtauth/keys.go:18 | joining the pieces of a split gives the string back |
| GoStrings.PiecesAreFree | internal/jwtauth/keys.go:18 | no piece of a split contains the separator |
| GoStrings.TrimSpaceDecomposes | internal/jwtauth/keys.go:20 | trimming removes white space at both ends and nothing else |
| AuthHandlers.Auth.Login | internal/handlers/auth.go:82-133 | a token pair is sent exactly when all checks pass, with every claim of the access token and one new row for that user; otherwise the table is unchanged and the first failing check is answered |
| AuthHandlers.Auth.Refresh | internal/handlers/auth.go:135-176 | each rotation outcome gets its reply, and the access token is for the row's owner |
| AuthHandlers.Auth.Logout | internal/handlers/auth.go:178-222 | exactly for a verified, unexpired access token the refresh token is revoked, and the access token's id until its expiry |
| AuthHandlers.SignedTokenIsAccepted | internal/middleware/auth.go:37-62 | with a usable key a signed token is accepted exactly until it expires, whichever key is picked, and names its user exactly if the id is representable |
| AuthHandlers.MayAcceptIff | internal/middleware/auth.go:37-62 | any token can be accepted exactly if issuer, audience and expiry are in order and it is signed with its key id's listed secret or, for an unlisted id, with some listed secret |
| AuthHandlers.MustAcceptIff | internal/middleware/auth.go:37-47 | any token is sure to be accepted exactly if every secret that may be picked is the one it is signed with |
| AuthHandlers.ForgedIsRejected | internal/middleware/auth.go:37-56 | a token signed with no listed secret, or with a foreign issuer or audience, or expired, is rejected |
| AuthHandlers.SignedTokenLogsOut | internal/handlers/auth.go:186-201 | logout accepts a signed token exactly until it expires and if the current key id is among the keys |
| AuthHandlers.LogoutAcceptsIff | internal/handlers/auth.go:186-201 | logout accepts any token exactly while it is unexpired and if signed with its key id's listed secret or else the current one |
| AuthHandlers.ExactIff | internal/middleware/auth.go:57-62 | an id survives the float64 conversion exactly if it is a multiple of the spacing around it |
| AuthHandlers.InexactIdIsConfused | internal/middleware/auth.go:57-62 | any other id is read as a different id, which itself survives |
| AuthHandlers.ReadIsNearest | internal/middleware/auth.go:57-62 | the id read is the nearest representable one, the even multiple halfway |
| AuthHandlers.LargeIdIsConfused | internal/middleware/auth.go:57-62 | the id 2^53 + 1 becomes its neighbour's |

## Left out

- Claim: of the commits whose errors the code ignores, the one after the INSERT is modelled; the one after the read has nothing to lose.
- AtMostOneExecution: assumes that the commit after the claim's INSERT succeeds; OncePerKeyIff shows when it must.
- TableRefinesHistory: serial runs only, with statements at non-decreasing clock readings and tokens drawn once, from an empty table.
- WipeIsPermanent: serial runs in which the wipe's DELETE works; WipeSurvivors says what a failed one leaves, and OvertakesIff which concurrent transactions escape.
- RunsAreSerializable: NOW() of a statement that waits is read when it proceeds, and a failing DELETE leaves its transaction open; a deadlock that makes the database roll back the transaction at that point is not modelled.
- EvictionInvisibleIff: the two clock readings of one request are equal, and a request's map access and token take are one step; the Load-then-Store race of `get` and a bucket evicted while in use are not modelled.
- RateIsBounded: the token bucket follows the documented contract of golang.org/x/time/rate in whole units; its float64 arithmetic, the infinite rate and the code of that library are not part of this model.
- SignedTokenIsAccepted: signatures are ideal, and token encoding and the alg header are not modelled; neither is Go's conversion to int64 of a float64 that an id next to 2^63 rounds up to.
- EqualCollTags: default sort and creations only; updates and deletions need not change the tag.
- Redis: the client's own retries are not modelled, and INCR and EXPIRE of one pipeline fail or succeed together. `window` is the time to live that EXPIRE is sent; the client sends whole seconds, truncated and at least one, so the results are about whole-second windows, which internal/server/server.go and internal/handlers/auth.go use.
- LIKE, title collation, case folding, CRC-32, SHA-256, JSON: parameters of the model; keys that the column collation treats as equal are one key.
- Malformed note ids in the path, and the GET and POST handlers: they reach no protocol state.
- Client address parsing, key prefixes per route and the email limiter: lookups without a property over runs.
- Registration, password hashing, roles, audit, metrics, routing, configuration and reading the JTI store: `AuthWith` never does the latter, and the rest is plumbing.
- Completion of every claimed key, replay on the same path only, and freshness of listing tags after updates: the code does not provide them.
