# Verification of the PKCS #11 provider

A Dafny model of the parts of the OpenSSL provider for PKCS #11 tokens that are hardest to get
right, with proofs. `dafny verify dfyconfig.toml` checks all of it.

## What is modelled

**The session pool** (`SessionPool`, `SessionInvariants`, `SessionSteps`, `SessionSafety`,
`SessionProgress`, `SessionOutcome`, `SessionReturn`, `SessionLogin`, `SessionReference`, `SessionCache`, `SessionFork`,
`SessionWitness`). Any number of agents request, use and return
sessions of one slot. A step is one acquisition of a lock with its critical section, one call of the token, or
one access outside the locks; steps of different agents interleave freely. The token follows
section 5.6 of PKCS #11: it has open session handles and is logged in or not, it decides the
outcome of every call, closing its last session logs it out, and it grants C_Login only when
logged out. It may also be reset from outside at any moment. An unlocked look at a session
may see any value at all. The counter of holding objects, the mark of a handle being closed, the
sets of kept and dropped sessions, the leaked handles and the number of resets are there to state
properties; the source does not have them. `SessionInvariants` holds the invariant, `SessionSteps`
shows that each step keeps it, `SessionSafety` draws the conclusions for all runs,
`SessionProgress` shows that the pool lock is given back, `SessionOutcome` and `SessionReturn` tell what
each step comes to and when a new session is taken, `SessionLogin` tells what a reset of the token
can break, `SessionReference` what a reference hands out, `SessionWitness` gives runs that
reach what those conclusions leave open, `SessionCache` tells when the cache bound holds for all
sessions, and `SessionFork` treats the child of a fork.

**TLS records without branches** (`Words`, `ConstantTime`, `TlsCbc`, `CipherContext`,
`RsaPremaster`). Octets and 64-bit words are bounded naturals, with C's wrap-around and the
bitwise operators written out digit by digit. The masked loops are methods, proved against
branching meanings. `CipherContext.CipherCtx` is the cipher context with its session; what the
session pool and the token answer are parameters.

**PKCS #11 URIs** (`Percent`, `Uri`, `UriRoundTrip`, `UriMeaning`, `UriCode`). Printing and parsing are
functions, proved inverse; what each attribute says and which tokens a URI is for is told one by one; the loops of the source are methods proved to compute those functions.

**The object pool** (`PoolTable`, `ObjectPool`), **the HkdfLabel structure** (`HkdfLabel`), **fetching
attributes** (`FetchAttributes`), **the slot walk** (`SlotWalk`) and **the store** (`Store`).

## What the proofs brought out

- `constant_equal` decides equality only where the exclusive or of its operands is at most 2^63.
  `tlsunpad` renormalises its mask with it outside that domain, so only the length test survives:
  padding octets are compared and then not taken into account, against section 6.2.3.2 of RFC 5246
  and the comment at src/cipher.c:540-546.
- The search of the object pool looks at the first `num` slots, not at all of them, and misses
  objects out of reach unless an object within reach answers the same searches. Removing the first of two
  objects is enough.
- The slot walk of `store_fetch` skips `slotid = nextid` when a session cannot be had; it then repeats
  the same request, and ends exactly when no such slot has another one after it.
- `p11prov_try_session_ref`, whose comment promises a valid session, can hand out one without a
  handle.
- The cache bound holds for what returning threads decide, not for all idle open sessions. A session
  escapes it exactly when its last reference is dropped after the last decision about it: while it is
  idle, while it is on its way back, or while `p11prov_try_session_ref` has it. Without such drops
  the bound holds for all.
- Two login sessions can exist once the token was reset from outside: exactly when a login is granted
  while another session is the login session or about to be, which the code does not look for. Likewise
  two sessions can record one handle, when the token gives it out again.
- After a fork, the child gets a sound pool exactly when no request was under way in the forking
  thread and nobody held the pool's mutex. The reset takes that mutex without initialising it anew,
  and a return takes it without the lock that a fork waits for; then the child blocks in its fork
  handler. The login session of the parent keeps a reference in the child that nobody gives back.
- Re-initialising a cipher context for the other direction while it holds a session changes the
  stored operation before the call fails. `freectx` then cancels the wrong operation, and a final
  call or a TLS record ends the wrong one: the session goes back to the pool with the old operation
  active. A too small buffer at a final call or TLS record has the same effect.
- An empty TLS record to decrypt is let through, and octets before its start are read.
- The premaster secret's size test takes sizes from 2^63 on for 48, all but one. With a key of fewer than
  48 octets the depadding leaves the buffer of the key's size.
- `p11prov_fetch_attributes` refuses a required attribute that the token reports unavailable without
  error on the batch path, and accepts it on the one-by-one path. A buffer of the caller's that is
  too small can fail the whole fetch even if its attribute is optional.

## Model

| member | source | states |
|---|---|---|
| SessionSafety.RunKeeps | src/session.c:708-1284 | every state of every interleaving satisfies the whole invariant: ownership, pool lock, references, cache, token and login |
| SessionSafety.StepKeeps | src/session.c:708-1284 | each lock-granular step of fetch, reference, login, check, open, close, count and return keeps the invariant |
| SessionSafety.SessionsAreExclusive | src/session.c:708-863 | in every run each session has at most one owner, is marked in use exactly while it has one, and the pool never exceeds its maximum |
| SessionSafety.CacheStaysBounded | src/session.c:1236-1268 | however returns race, the sessions they decided to keep open and unreferenced, not taken since, number fewer than the cache limit (none when it is 0), and each really is open, unreferenced and unheld |
| SessionSafety.LoginSessionIsGuarded | src/session.c:1236-1240 | an idle login session is referenced; nobody about to close, count or recycle a session, and no caller of a plain request, holds a login session |
| SessionSafety.OneLoginSession | src/session.c:594-598 | as long as the token is not reset from outside: at most one session is the login session and at most one agent is making it so |
| SessionSafety.LoginSucceedsLoggedIn | src/session.c:867-941 | as long as the token is not reset from outside: slot_login reaches success only with the token logged in and an open handle in its session |
| SessionSafety.LoginSessionMeansLoggedIn | src/session.c:878-883 | as long as the token is not reset from outside: where a login session exists the token is logged in, so the early success of slot_login is right |
| SessionSafety.HandlesAreDistinct | src/session.c:64-118 | as long as the token is not reset from outside: no two sessions record the same handle, and recorded handles are open in the token |
| SessionSafety.HandedOutIsOpen | src/session.c:1089-1108 | get_session and slot_login hand out only sessions with a handle |
| SessionSafety.ReferencedIsClosedExactlyWhen | src/session.c:1160-1169 | of every step by which try_session_ref hands out a session: it has no handle if and only if it comes straight from a check that found none; after a reopening it has one |
| SessionSafety.LoginOutlivesOthers | src/session.c:107-118 | as long as the token is not reset from outside: no step of the provider closes the handle of the login session or logs the token out under it |
| SessionSafety.LimitsStay | src/session.c:120-157 | the limits set at initialisation never change in a run |
| SessionSafety.LimitsMeaning | src/session.c:141-151 | how large the pool and the cache are, from what the token reports and the user configures |
| SessionSafety.KeptLeaveRoom | src/session.c:141-151 | whatever the token reports and the user configures, the kept sessions leave room in the pool and respect the configuration |
| SessionSteps.OwnerKeepsLocal | src/session.c:315-361 | checks, opens, closes, logins and returns by the owner keep what the owner relies on about references and handles |
| SessionSteps.OwnerKeepsToken | src/session.c:565-598 | the same moves disturb no other session's handle or login, and start a login only on a logged out token |
| SessionSteps.TakeKeeps | src/session.c:720-823 | taking an idle session that serves the purpose keeps the invariant |
| SessionSteps.RecycleKeeps | src/session.c:825-847 | recycling a broken session, which does not test for the login mark, never recycles a login session |
| SessionSteps.TryClaimKeeps | src/session.c:720-847 | the critical section of each scanning loop keeps the invariant, whatever the unlocked look saw |
| SessionSteps.AllocateKeeps | src/session.c:270-313 | appending a session keeps the invariant and the maximum |
| SessionSteps.CountCovers | src/session.c:1245-1255 | a finished count is at least the number of kept sessions, plus one if the counted session is open |
| SessionSteps.CountDoneKeeps | src/session.c:1254-1268 | deciding on a count after unlocking the pool still keeps the cache bound |
| SessionSteps.PutBackKeeps | src/session.c:1270-1275 | clearing the in-use mark keeps the invariant |
| SessionSteps.DropReferenceKeeps | src/session.c:424-432 | an object dropping its reference at any moment keeps the invariant |
| SessionSteps.TokenResetKeeps | src/session.c:348-360 | losing every handle from outside keeps ownership, references and the cache bound |
| SessionSafety.TakeReferencedKeeps | src/session.c:1135-1152 | taking a referenced session without the pool lock keeps the invariant |
| SessionInvariants.OthersSurvive | src/session.c:107-118 | opening, closing or forgetting one handle leaves every other session's handle, login state and login mark right |
| SessionInvariants.NotKept | src/session.c:1236-1268 | a session somebody holds, other than on the last step of its return, is not among the kept ones |
| SessionInvariants.BearersAnchored | src/session.c:594-598 | whoever is, or is becoming, the login session shows the token logged in |
| SessionFork.ForkKeepsExactlyWhen | src/session.c:190-235 | the child of a fork gets a sound pool if and only if the fork interrupted no request of the forking thread and nobody held the pool's mutex, without which the reset never ends |
| SessionFork.ChildSessions | src/session.c:200-215 | each session of the child: idle, without a handle or login mark, with its references and broken mark |
| SessionFork.ForkMayBlock | src/session.c:190-201 | a run reaches a state with the forking thread idle in which the child blocks, because a return is counting |
| SessionFork.ForkCanShareSession | src/session.c:190-235 | a request the fork interrupted keeps a session that the child can hand out to another one |
| SessionFork.ForkMayShareSession | src/session.c:190-235 | a run reaches a state from which that happens |
| SessionFork.FormerLoginNeverClosed | src/session.c:190-235 | the reset, where it comes to its end, drops the login mark but not its reference: in every run of the child that session is never counted, closed by a return, or kept unreferenced |
| SessionFork.StepKeepsExcess | src/session.c:414-432 | no step ever gives back a reference that is not accounted for |
| SessionWitness.ResetAllowsTwoLogins | src/session.c:565-598 | a run with one token reset from outside reaches two login sessions |
| SessionWitness.OpenSessionIsReused | src/session.c:775-801 | a run in which a session put back open is handed out again with its handle |
| SessionWitness.LoginSessionIsReused | src/session.c:721-748 | a run in which the idle login session is had for another login, with no further C_Login |
| SessionWitness.ReferencedMayBeClosed | src/session.c:1135-1183 | a run reaches a session handed out by try_session_ref without a handle |
| SessionOutcome.LoginRequestGetsLoginSession | src/session.c:721-748 | over runs: a login request that locks the login session in its first scan owns it if and only if it is idle and unbroken, and is refused there if and only if it is in use or broken |
| SessionOutcome.TakenIsUsable | src/session.c:720-847 | over runs: a session the scan has just given out is unbroken or without a handle, and is the login session only for a login request |
| SessionOutcome.ClaimOutcome | src/session.c:728-846 | in each phase a locked session is taken if and only if it is idle and what the phase is after; else the scan goes on, or a login is refused |
| SessionOutcome.ClaimChanges | src/session.c:728-846 | taking changes nothing but the mark that it is in use; recycling also closes the session |
| SessionOutcome.LookOutcome | src/session.c:724-831 | for each phase, what an unlocked look must have seen for the session to be locked |
| SessionOutcome.NewOnlyAfterAll | src/session.c:720-853 | over runs: a request gets a new session only after its scan has gone past every session in each of its phases, in their order |
| SessionOutcome.NewOnlyIfNoneToBeHad | src/session.c:804-853 | over runs: each of them was in use, the login session or broken when its turn came, or the unlocked look was wrong about it |
| SessionOutcome.PassedOver | src/session.c:804-823 | over runs: only such sessions are passed over by the scan for any free one |
| SessionOutcome.AllocateOutcome | src/session.c:270-313 | a new session is unbroken, unreferenced and without a handle, and the others stay; without room or memory the request is refused |
| SessionReturn.ReturnOutcome | src/session.c:1236-1265 | a referenced session goes back as it is, a broken one is closed, for any other the open ones are counted |
| SessionReturn.CountIsExact | src/session.c:1247-1255 | over runs: a count during which no handle changes is the number of open sessions |
| SessionReturn.CountDoneOutcome | src/session.c:1261-1267 | the session stays open if and only if the count is below the limit |
| SessionReturn.KeptOpenExactlyWhen | src/session.c:1240-1268 | over runs: with no handle changing meanwhile, an unreferenced unbroken session stays open if and only if fewer sessions than the limit are open |
| SessionReturn.BrokenIsClosed | src/session.c:1240-1275 | over runs: a broken session that nothing refers to when it goes back has no handle once it is back |
| SessionReturn.CheckOutcome | src/session.c:315-361 | a session is handed on only with a handle the token has open, or without one for a reference; where the token does not have it, it loses its handle |
| SessionReturn.CheckCanHandOn | src/session.c:339-345 | and it can be handed on where the token has it |
| SessionReturn.CheckCanFail | src/session.c:346-360 | the ways a check can fail: the handle is forgotten, a referenced session given up, an unreferenced one closed |
| SessionReturn.OpenOutcome | src/session.c:64-105 | opening adds a handle the token did not have open, and the session goes on with it and the token's login state, or is given up |
| SessionReturn.OpenCan | src/session.c:64-105 | both can happen |
| SessionReturn.LoginOutcome | src/session.c:592-600 | no C_Login where the session says logged in; a grant takes a reference and then sets the mark |
| SessionReturn.LoginCan | src/session.c:592-600 | C_Login can be granted, found done, or fail |
| SessionReturn.LoginFailureOutcome | src/session.c:931-938 | after a failed login the session goes back without the mark and without its reference |
| SessionReturn.LoginDoneOutcome | src/session.c:925-930 | after a login that succeeded the caller has the session, or it goes back |
| SessionReturn.CloseOutcome | src/session.c:107-118 | closing removes the handle from the token, logging out with the last one, or leaves it open there; the session forgets it either way |
| SessionReturn.HeldOutcome | src/session.c:1297-1305 | who holds a session may mark it broken, let an object refer to it, or give it back, and nothing else |
| SessionReturn.HeldCan | src/session.c:414-422 | and each of these |
| SessionReturn.PutBackOutcome | src/session.c:1270-1275 | putting back clears the in-use mark and nothing else |
| SessionReturn.BeginsExactlyWhen | src/session.c:1135-1152 | when a request, a taking by reference and a drop of one can happen |
| SessionLogin.OneLoginExactlyWhen | src/session.c:592-598 | over every run, resets included: there never was more than one login session, or one about to be, if and only if no login was granted while another session was one |
| SessionLogin.StepKeepsOneLogin | src/session.c:592-598 | a step keeps it if and only if it is not such a login |
| SessionLogin.HandlesApartExactlyWhen | src/session.c:64-118 | over every run, resets included: no two sessions ever recorded the same handle if and only if none was opened with a handle another one recorded |
| SessionLogin.StepKeepsApart | src/session.c:64-118 | a step keeps it if and only if it is not such an opening |
| SessionLogin.ResetAllowsSharedHandle | src/session.c:70-105 | a run with one reset reaches two sessions that record the same handle |
| SessionReference.HandedOutClosedExactlyWhen | src/session.c:1135-1169 | in every run, a session that try_session_ref took is handed out without a handle if and only if it had none when it was taken |
| SessionReference.CallMidway | src/session.c:1160-1183 | from the taking on, in every interleaving, where the call stands tells whether there was a handle |
| SessionProgress.HolderCanGoOn | src/session.c:708-863 | in every run the agent that holds the pool lock, scanning, having found a session or none, or counting, has a step to take on its own |
| SessionProgress.LockIsGivenBack | src/session.c:708-863 | however the others interleave, an agent takes only so many steps of its own while it keeps the pool lock |
| SessionProgress.LockBound | src/session.c:720-863 | at most 10 n + 10 for a request and n for a return, in a pool of n sessions |
| SessionProgress.HolderShrinks | src/session.c:720-863 | every step of the holder leaves it less to do or gives the lock back, and no other agent's step gives it more |
| SessionProgress.RunKeepsPlaces | src/session.c:720-863 | in every run scans, claims and counts stay within the pool, and the lock is held by an agent that goes on with it |
| SessionCache.EscapesExactlyWhen | src/session.c:1236-1275 | in every run an idle open unreferenced session is outside the cache bound if and only if its last reference was dropped after the last decision of a return about it |
| SessionCache.IdleSparesBounded | src/session.c:1236-1275 | in every run the idle open unreferenced sessions of which this is not so are fewer than the cache limit, or none |
| SessionCache.UndroppedRunsStayBounded | src/session.c:1236-1275 | in a run without dropped references the bound holds for all idle open unreferenced sessions |
| SessionCache.DroppedIsLateDrop | src/session.c:424-432 | the record of drops in the state is what the steps of the run say |
| SessionCache.StepKeepsSpare | src/session.c:1236-1275 | each step keeps what is known of open unreferenced sessions, in the hands of their owners and idle |
| SessionCache.RunKeepsSpare | src/session.c:1236-1275 | so does every run |
| SessionCache.DroppedReferenceEscapesCache | src/session.c:1236-1268 | a run with a cache limit of 0 reaches an idle, open, unreferenced session by a drop while it is idle |
| SessionCache.DropInReturnEscapesCache | src/session.c:1236-1275 | another one by a drop between the test of a return and its last step |
| ConstantTime.SmallerMaskMeaning | src/util.h:109-112 | for all 64-bit words the mask is all ones if a < b and zero otherwise |
| ConstantTime.EqualValue | src/util.h:114-117 | the equality word is 1 for equal words and for words whose difference pattern exceeds 2^63 |
| ConstantTime.EqualDecidesExactlyWhen | src/util.h:114-117 | equality is decided if and only if the exclusive or of the words is at most 2^63 |
| ConstantTime.EqualMistakesDistantWords | src/util.h:114-122 | a concrete pair of different words it calls equal |
| ConstantTime.EqualBelowTop | src/util.h:114-122 | below 2^63 the equality word and mask decide equality |
| ConstantTime.SelectIntMeaning | src/util.h:124-131 | for condition 0 or 1 the int selection is if-then-else, for all 32-bit ints |
| ConstantTime.SelectByteMaskMeaning | src/util.h:133-139 | for mask 0 or 0xff the octet selection is if-then-else |
| ConstantTime.SelectBuf | src/util.h:141-151 | the buffer becomes the one or the other source, octet by octet, also when it is one of them, and nothing beyond |
| TlsCbc.ReadsStayInsideExactlyWhen | src/cipher.c:503-597 | with the indices of the code in 64-bit arithmetic, all octets read lie in the record if and only if it is not empty, for every length and MAC size |
| TlsCbc.EmptyRecordReads | src/cipher.c:509-597 | where an empty record is read before its start: length octet, scan and MAC search |
| TlsCbc.ScanPadding | src/cipher.c:534-553 | after the scan the low octet of the mask is 0xff if and only if the length fits and every padding octet equals the padding length; all indices are in bounds for every record length |
| TlsCbc.NarrowMeaning | src/cipher.c:547-553 | one turn narrows the mask exactly when an octet inside the padding differs |
| TlsCbc.Renormalised | src/cipher.c:555-556 | comparing with 0xff leaves the length test only |
| TlsCbc.TakenApart | src/cipher.c:503-609 | a record that is content, MAC and a tail ending with its own length is accepted with that content length and MAC |
| TlsCbc.NotTakenApart | src/cipher.c:503-609 | one that is not is refused, or accepted with a random MAC and all but its last octets as content |
| TlsCbc.PaddingMeaning | src/cipher.c:540-553 | the padding matches if and only if the padding and its length are so many octets of one value |
| TlsCbc.CollectMeaning | src/cipher.c:579-588 | one turn of the inner loop puts an octet in its place of the MAC and leaves the others |
| TlsCbc.MacMask | src/cipher.c:579-588 | of all positions scanned one octet is copied to each position of the MAC |
| TlsCbc.ExtractMac | src/cipher.c:558-597 | the double loop leaves the MAC slice of the record when the mask passes and the random octets otherwise; the scanned window covers the slice |
| TlsCbc.UnpadIsStrictExactlyWhen | src/cipher.c:503-609 | the code agrees with section 6.2.3.2 of RFC 5246 if and only if padding that fits by length is well formed |
| TlsCbc.MalformedPaddingIsTaken | src/cipher.c:555-609 | a record with malformed padding that is accepted |
| TlsCbc.PadThenUnpad | src/cipher.c:640-668 | for every content, MAC and version, unpadding what encryption pads gives the content length, without explicit IV, and the MAC |
| CipherContext.CipherCtx.TlsUnpad | src/cipher.c:503-609 | the code computes the branching meaning of the record, length, verdict and MAC, for every record; of the empty one nothing is promised |
| CipherContext.CipherCtx.UnpadInPlace | src/cipher.c:525-609 | the same behind the explicit IV |
| CipherContext.CipherCtx.PassMask | src/cipher.c:534-556 | what is left of the scan is the length test |
| CipherContext.CipherCtx.CopyMac | src/cipher.c:558-597 | the MAC buffer is fresh and holds the slice or the random octets |
| CipherContext.CipherCtx.SessionInit | src/cipher.c:372-408 | a session is taken and its operation started, or it is held without |
| CipherContext.CipherCtx.ReturnSession | src/cipher.c:665-668 | the held session goes back once |
| CipherContext.CipherCtx.EncryptRecord | src/cipher.c:641-668 | the record is padded in place, encrypted in one call, and the session returned whatever the result |
| CipherContext.CipherCtx.DecryptRecord | src/cipher.c:674-702 | the record is decrypted in one call, the session returned, and length and MAC are those of the branching meaning; the result is undefined exactly for an empty record that the token decrypts |
| CipherContext.CipherCtx.Operate | src/cipher.c:639-713 | when an update succeeds, in each mode and direction, what it writes, and when the session is given back |
| CipherContext.CipherCtx.Update | src/cipher.c:611-718 | when an update succeeds: outside TLS mode if a session is held or had and the part call succeeds, else nothing is written; in TLS mode if the record is accepted and fits, its call succeeds, and for decryption it can be unpadded; with the whole new state, and exactly when the result is undefined |
| CipherContext.CipherCtx.Finish | src/cipher.c:720-757 | final returns the session whatever the result |
| CipherContext.CipherCtx.Free | src/cipher.c:209-255 | what goes back: the operation cancelled if it is of the direction of the context, or the session marked broken; none is held after |
| CipherContext.SessionsAreConserved | src/cipher.c:209-755 | over every run of init, update, final and free, sessions are acquired and returned alternately, the difference is 1 if and only if one is held, and 0 after free |
| CipherContext.StepKeepsBalance | src/cipher.c:372-755 | each call keeps the balance of sessions, whatever token and pool answer |
| CipherContext.RunKeepsBalance | src/cipher.c:372-755 | so does every run |
| CipherContext.ReplayCounts | src/cipher.c:209-755 | alternation of acquire and return means the counts differ by the session held |
| CipherContext.NoOperationLeftHanging | src/cipher.c:209-755 | over every run, sessions go back without an operation active if and only if each final call and TLS record is settled; in a run ended by freectx, whatever the token answers, if and only if also what is begun and not finished is of the direction asked for last |
| CipherContext.OrderlyRunsEndClean | src/cipher.c:209-755 | a context whose direction is never turned with a session held, and whose closing calls find room, always ends clean after freectx |
| CipherContext.FreeMarksBrokenExactlyWhen | src/cipher.c:217-248 | freectx marks the session broken if and only if an operation was started on it and the token refuses to cancel |
| CipherContext.OperationIsLastAsked | src/cipher.c:339-352 | the direction of a context is the one of its last initialisation |
| CipherContext.RunStaysClean | src/cipher.c:611-755 | the first part by itself, for every sequence of calls and replies |
| CipherContext.StepStaysClean | src/cipher.c:611-755 | one call leaves nothing hanging if and only if it is settled |
| CipherContext.BegunIsActive | src/cipher.c:372-408 | the operation active in the token is the one that the calls started and neither ended nor failed since |
| CipherContext.OrderlyRunsStayClean | src/cipher.c:611-755 | a simple sufficient condition: the direction is never turned with a session held, and no closing call is answered with a too small buffer |
| CipherContext.OrderlyRunsSettle | src/cipher.c:611-755 | such runs are settled |
| CipherContext.FreeLeavesOperationExactlyWhen | src/cipher.c:217-247 | after a clean run freectx leaves an operation active, for some answer of the token, if and only if one is begun in another direction than asked for last |
| CipherContext.TurnedContextLeavesOperation | src/cipher.c:339-371 | re-initialising an encrypting context for decryption while a session is held, then freeing it, a final call, or in TLS mode the next record, gives the session back encrypting |
| CipherContext.TooSmallLeavesOperation | src/cipher.c:662-668 | so does a TLS record for which the token answers that the buffer is too small |
| CipherContext.RecordRoundTrip | src/cipher.c:641-702 | what one context encrypts as a record another one decrypts in the same buffer to the content length and the MAC, and exactly when both go through |
| RsaPremaster.VersionCondMeaning | src/asymmetric_cipher.c:267-277 | the version mask is 1 if and only if the version is the client's or the enabled alternate |
| RsaPremaster.StatusDecidesExactlyWhen | src/asymmetric_cipher.c:395 | the status test is right exactly for status words up to 2^63 |
| RsaPremaster.SizeDecidesExactlyWhen | src/asymmetric_cipher.c:265 | the size test is right exactly for sizes below 2^63 and for 2^63 + 48 |
| RsaPremaster.PremasterDecidedExactlyWhen | src/asymmetric_cipher.c:265-278 | secrets taken are those of size 48 and an accepted version exactly for these sizes, or where the version is refused |
| RsaPremaster.DepaddingStaysInsideExactlyWhen | src/asymmetric_cipher.c:322-337 | with the space checks passed, depadding stays inside the key-sized buffer and the output if and only if the key has at least 48 octets |
| RsaPremaster.ConstantTimeDepad | src/asymmetric_cipher.c:242-285 | the output is the decrypted secret if size mask and version accept it, else the random octets, for every reported size; nothing beyond is written |
| RsaPremaster.Pkcs1Decrypt | src/asymmetric_cipher.c:322-415 | result and output of the whole branch, with and without TLS padding, in terms of status, size and version, for every reported size and key size; undefined exactly for TLS padding with a key of fewer than 48 octets |
| Percent.UnescapeEscape | src/util.c:222-272 | decoding the escaped form gives back every octet string, in id and in text mode |
| Percent.EscapedIsPlain | src/util.c:626-636 | the escaped form has none of the separators, slash or NUL and takes between n and 3n octets |
| Percent.UnescapeFailsExactlyWhen | src/util.c:234-257 | decoding fails if and only if some % before the end lacks two hexadecimal digits |
| Percent.HexMeaning | src/util.c:201-220 | the hexadecimal digits in both cases, and their values |
| Percent.EscapeOneMeaning | src/util.c:626-636 | which octets stand for themselves, and how the others are written |
| Percent.EscapeLeavesExactlyWhen | src/util.c:626-682 | text is left as it is if and only if it has only such octets |
| Percent.EscapeConcat | src/util.c:671-676 | escaping goes octet by octet |
| Percent.UnescapeStops | src/util.c:234 | decoding stops at the first NUL |
| Percent.ParseAttr | src/util.c:222-272 | the decoding loop computes this, in bounds, with a final NUL |
| Percent.TextOfNulFree | src/util.c:373-379 | the text length test refuses exactly values with a NUL |
| UriRoundTrip.ParsePrint | src/util.c:684-802 | parsing the printed URI gives back model, manufacturer, serial, token, id, label and class; it fails if and only if the label has a NUL |
| UriRoundTrip.PrintedMatchesExactly | src/util.c:906-946 | a printed URI matches exactly the tokens that agree on every field it shows, its own among them |
| UriRoundTrip.SameTextMeaning | src/util.c:906-946 | the bounded comparison with a token field is equality with the field's text |
| UriRoundTrip.ReadComponent | src/util.c:580-609 | one printed component is taken by the handler of its name, and parsing goes on after it |
| UriRoundTrip.ReadTypeName | src/util.c:419-448 | the printed class names are the ones the parser reads |
| UriRoundTrip.ReadText | src/util.c:360-383 | text handlers undo escaping exactly for values without NUL |
| UriMeaning.MatchMeaning | src/util.c:906-946 | every URI is for a token if and only if a slot id it gives is the slot's, and each text it gives, cut to the width of its field, is the text of that field, for all seven |
| UriMeaning.ParsedTextsNulFree | src/util.c:360-383 | the texts of a URI that was parsed have no NUL |
| UriMeaning.UriSays | src/util.c:576-610 | any attributes, in any order, with any of the three separators: the URI has their effects one after the other |
| UriMeaning.OtherSchemes | src/util.c:576-578 | only the scheme pkcs11 is taken |
| UriMeaning.SlotIdSays | src/util.c:502-558 | the digits of a number below 2^64 behind slot-id give that slot id; larger ones are refused |
| UriMeaning.TextEffects | src/util.c:549-564 | library, slot and PIN texts each go to their own field, or refuse the URI |
| UriMeaning.TokenEffects | src/util.c:553-561 | token and object texts each go to their own field, or refuse the URI |
| UriMeaning.IdEffect | src/util.c:560 | the identifier, of any octets |
| UriMeaning.ClassEffects | src/util.c:562-568 | the class, under two names |
| UriMeaning.SlotIdEffect | src/util.c:558 | the slot id |
| UriMeaning.VersionEffect | src/util.c:552 | the library version |
| UriMeaning.PinSourceEffect | src/util.c:565-566 | the PIN from a file |
| UriMeaning.NoEffect | src/util.c:591-602 | a name that is no attribute says nothing |
| UriMeaning.ParseDecimal | src/util.c:502-527 | numbers in base 10, and where they end |
| UriMeaning.ParseDigits | src/util.c:502-527 | a run of digits, leading zeros included, is the number it spells |
| UriMeaning.ParseDigitsThen | src/util.c:515-518 | anything behind the digits makes it no number |
| UriMeaning.ParseVersionMeaning | src/util.c:450-500 | two numbers up to 255 with a dot between them are a version |
| UriMeaning.ParseVersionRefuses | src/util.c:455-467 | without a dot, or of another length, it is none |
| UriMeaning.ParseTextMeaning | src/util.c:360-383 | a text attribute takes every escaped text without NUL and nothing else |
| UriMeaning.ParseClassMeaning | src/util.c:419-448 | a class is one of five names |
| UriMeaning.PinOfText | src/util.c:274-300 | a PIN source names a file, with or without the scheme; a command is refused |
| UriCode.ByteToHex | src/util.c:626-636 | one octet is written as itself or as its escape, within the buffer |
| UriCode.EscapeInto | src/util.c:671-676 | the escaping loop writes the escaped form after what is there |
| UriCode.UriComponent | src/util.c:638-682 | a component is written in a buffer that always suffices, name, value, separator and NUL |
| UriCode.ScanApplies | src/util.c:591-602 | the prefix test of the attribute scan finds the attribute of the component's name |
| UriCode.ParseComponent | src/util.c:584-602 | one component has the effect of its attribute's handler, or none |
| UriCode.ParseUri | src/util.c:541-624 | the parsing loop computes the recursive meaning that printing is inverse to |
| PoolTable.AddedConsistent | src/obj/pool.c:116-151 | adding keeps count, hint and table consistent, finds a slot, and the slot is the lowest free one |
| PoolTable.AddedElsewhere | src/obj/pool.c:116-151 | nothing else changes: a full table grows by 32 free slots, and every object stays |
| PoolTable.RemovedConsistent | src/obj/pool.c:204-209 | removing empties the one slot, keeps the others, and lowers the hint to it |
| PoolTable.RunsStayBounded | src/obj/pool.c:116-151 | over every run each index assigned is below the peak occupancy, and the size is the peak rounded up to a multiple of 32 |
| PoolTable.HolesHideObjects | src/obj/pool.c:254 | objects lie at or above num if and only if some slot below is free |
| PoolTable.SearchCompleteExactlyWhen | src/obj/pool.c:253-279 | searching num slots by class, type, parameter set, size and attributes finds a match for every search that has one, if and only if every object out of reach is covered by one within |
| PoolTable.RunSearchComplete | src/obj/pool.c:253-279 | the same for the table any run of adds and removes leads to |
| PoolTable.RemovalHidesObject | src/obj/pool.c:253-279 | such a run on which it fails: of two objects added the first is removed, and the second is not found by any search |
| PoolTable.CoversMeaning | src/obj/pool.c:222-239 | one object covers another if and only if it answers every search the other does |
| PoolTable.QueryDiscriminates | src/obj/pool.c:253-279 | a search asks for class, type, parameter set, size and attributes, each in its own right |
| PoolTable.HolesHideUnrelated | src/obj/pool.c:253-279 | where no object covers another, that is so if and only if there is no hole below num |
| ObjectPool.ObjPool.Grow | src/obj/pool.c:116-135 | growth adds 32 free slots and moves nothing |
| ObjectPool.ObjPool.FindFree | src/obj/pool.c:137-149 | the scan from the hint ends on the lowest free slot; the reset of the hint and the inconsistent state are unreachable |
| ObjectPool.ObjPool.Store | src/obj/pool.c:144-149 | the object is put in its slot and learns its index |
| ObjectPool.ObjPool.Add | src/obj/pool.c:100-168 | adding is first fit, and fails only for lack of memory or at the maximal size, changing nothing then |
| ObjectPool.ObjPool.Remove | src/obj/pool.c:170-220 | an object is removed if and only if it is in the pool, from where it says; otherwise nothing changes |
| ObjectPool.ObjPool.FindObject | src/obj/pool.c:241-285 | the first match among the first num slots, or none there |
| ObjectPool.MatchAttrs | src/obj/pool.c:222-239 | the attribute loop |
| ObjectPool.ObjPool.ForkReset | src/obj/pool.c:70-96 | every object is marked for revalidation and loses its handles; the table stays |
| ObjectPool.HintInRange | src/obj/pool.c:137-139 | with room the hint is within the table |
| HkdfLabel.DecodeEncode | src/kdf.c:438-458 | the structure decodes to length, prefixed label and context |
| HkdfLabel.EncodeDecode | src/kdf.c:438-458 | and every structure that decodes is the encoding of what it decodes to |
| HkdfLabel.EncodeInjective | src/kdf.c:438-458 | different requests have different encodings |
| HkdfLabel.EncodeLayout | src/kdf.c:443-458 | the layout: the length with the higher octet first, and each text behind its own length |
| HkdfLabel.Encode | src/kdf.c:439-442 | never more than 514 octets |
| HkdfLabel.FillInfo | src/kdf.c:443-458 | the running index writes the encoding, in bounds |
| HkdfLabel.ExpandLabel | src/kdf.c:430-463 | exactly which arguments are taken, what is then derived with, and that the length mismatch never occurs |
| FetchAttributes.ConformingVerdict | src/util.c:31-122 | with a conforming token and more than one attribute success means that every required attribute is readable, unless the query of all is answered with a too small buffer |
| FetchAttributes.RoomyVerdict | src/util.c:31-122 | with buffers that are large enough there is no such answer |
| FetchAttributes.FirstAnswerMeaning | src/util.c:31-33 | when the query of all attributes succeeds, and when it can be answered with a too small buffer |
| FetchAttributes.VerdictIsRightExactlyWhen | src/util.c:33-122 | for a given answer of the token, the two cases in which success and readability of the required attributes differ |
| FetchAttributes.EveryVerdictIsRightExactlyWhen | src/util.c:33-122 | for every answer a token may give, success means that the required attributes are readable, if and only if no small buffer of an optional one can spoil it, and no refused attribute can hide that a required one is reported unavailable |
| FetchAttributes.RightUnlessSpoiled | src/util.c:33-122 | then success means that for each answer |
| FetchAttributes.SingleVerdict | src/util.c:72-74 | a single attribute has no second path |
| FetchAttributes.TwoQueriesFetch | src/util.c:46-66 | sizing and filling gives the token's octets, followed by a zero where allocated |
| FetchAttributes.BatchWritesAgree | src/util.c:31-33 | what a failed batch wrote does not change the outcome |
| FetchAttributes.SizeAll | src/util.c:34-62 | the sizing loop, the re-request list, and the refusal of required attributes |
| FetchAttributes.FetchBatch | src/util.c:33-71 | the batch path |
| FetchAttributes.FetchOne | src/util.c:78-116 | one attribute on the other path |
| FetchAttributes.OneByOne | src/util.c:72-122 | the one-by-one path |
| FetchAttributes.Fetch | src/util.c:12-132 | when the fetch succeeds, for all tokens and requests, and what each attribute then carries, octet by octet |
| SlotWalk.GetSession | src/session.c:1012-1081 | the cycling loop finds the next viable slot and names the one after it |
| SlotWalk.FetchSlot | src/slot.c:406-415 | the slot at an index, which then moves on, or none |
| SlotWalk.WalkEndsExactlyWhen | src/store.c:110-155 | feeding the next slot back ends if and only if every viable slot but perhaps the last gives a session, and then visits each viable slot that gives one once, in list order |
| SlotWalk.WalkEnds | src/store.c:110-155 | from any position |
| SlotWalk.WalkReachesStuck | src/store.c:122-139 | otherwise the walk comes to a slot it asks for for ever |
| SlotWalk.WalkSticks | src/store.c:122-139 | there a failed request is repeated unchanged |
| SlotWalk.VisitsAreViable | src/store.c:110-155 | where all viable slots give sessions the visits are exactly the viable slots |
| SlotWalk.VisitsInOrder | src/store.c:110-155 | the slots visited give sessions and come in list order |
| Store.StoreCtx.TakeTurn | src/store.c:110-150 | one turn gives back the last session, takes the next, and gathers its objects |
| Store.StoreCtx.Pass | src/store.c:107-155 | one pass gathers the objects of every visited slot in order, and counts as loaded if one search succeeded |
| Store.StoreCtx.StoreFetch | src/store.c:84-182 | with a login asked for, or nothing found without one and a login not ruled out, objects and verdict are those of the tokens logged in; else those without a login |
| Store.StoreCtx.StoreLoad | src/store.c:237-473 | the first load fetches in that way; the next match is handed out and the position moves past it; a failed store stays failed |
| Store.StoreCtx.DirectFetch | src/store.c:653-684 | every match that can be described is handed out once in order, all sessions are given back, and success means the last object matched and all were taken; what only a login shows is not missed, unless logging in is ruled out |
| Store.Turn | src/store.c:110-155 | a turn of the walk in terms of what is gathered and what is left |
| Store.ProgressStep | src/store.c:253-333 | a load keeps delivered and remaining objects together the whole |
| Store.DeliveriesMeaning | src/store.c:253-333 | what is delivered is the matches that can be described, as often as they are there |
| Store.DeliveriesOrdered | src/store.c:253-333 | and in their order |
| Store.AllWellMeaning | src/store.c:667-673 | when all loads succeed |
| Store.GatheredMeaning | src/store.c:110-155 | what is gathered is what the slots that give a session show |
| Store.GatheredNothingExactlyWhen | src/store.c:156-158 | nothing is gathered if and only if none of them shows an object |
| Store.AnySearchedMeaning | src/store.c:141-149 | a store is loaded if and only if one of them was searched without error |

## Left out

- Store.StoreCtx.StoreFetch: requires a slot list whose walk ends, because `SlotWalk.WalkEndsExactlyWhen` shows that the source's loop does not end otherwise; the same holds for `Store.StoreCtx.Pass`, `Store.StoreCtx.DirectFetch`, and `Store.StoreCtx.StoreLoad` of a store not yet loaded.
- SlotWalk.WalkEndsExactlyWhen: takes distinct slot ids, stable checks and stable availability of sessions, which the source does not enforce.
- SlotWalk.GetSession: the branch for one specific slot without iteration is not modelled; viability stands for the slot checks and the login asked for.
- CipherContext.CipherCtx.Update: what the source does with an empty TLS record once the token has decrypted it is not described, because it reads octets that are not the record's; sizes stay below 2^63, as those of objects in C do.
- RsaPremaster.Pkcs1Decrypt: what the source does with TLS padding and a key of fewer than 48 octets is not described, because it leaves its buffer; the token writes no more than a key's octets.
- UriRoundTrip.ParsePrint: for the five object classes that have a URI at all; the printer gives none for others.
- FetchAttributes.Fetch: buffers to allocate start out null, and the caller's are as long as they say; memory does not run out.
- PoolTable.RunsStayBounded: growth succeeds throughout; `ObjectPool.ObjPool.Add` also covers its failure.
- SessionSafety.OneLoginSession: as long as the token is not reset from outside; `SessionLogin.OneLoginExactlyWhen` has the exact condition for all runs, and `SessionWitness.ResetAllowsTwoLogins` a run on which it fails.
- SessionSafety.HandlesAreDistinct: as long as the token is not reset from outside; `SessionLogin.HandlesApartExactlyWhen` has the exact condition for all runs, and `SessionLogin.ResetAllowsSharedHandle` a run on which it fails.
- SessionSafety.LoginSucceedsLoggedIn: as long as the token is not reset from outside, which logs it out at any moment.
- SessionSafety.LoginSessionMeansLoggedIn: likewise.
- SessionSafety.LoginOutlivesOthers: likewise; a reset closes every handle.
- CipherContext.NoOperationLeftHanging: whether an update is of a TLS record is free at each call, where the source fixes it while a session is held; the statement covers more runs than the source has.
- SessionSafety.CacheStaysBounded: about sessions that returns decided to keep; `SessionCache` has the bound for all idle open sessions, and when it fails.
- SessionFork.ForkKeepsExactlyWhen: about the session pool only; the object pool's reset takes a mutex in the same way, which `ObjectPool.ObjPool.ForkReset` does not model.
- The session pool is modelled on values as a transition system, not with mutable classes: its steps belong to several threads. Mutexes always succeed, a critical section on one session is one step, and opening a session and reading its state are one step.
- Freeing a pool while sessions are in use, which orphans them, and replacing a session whose mutex cannot be reinitialised after a fork.
- Session callbacks, context specific logins, PIN prompts, PIN files as such and PIN caching; waiting with a timeout is the freedom of an agent to try again.
- Whether an open session has the flags a request asks for is the token's choice at each check.
- The search filters of the store, certificate names and serial numbers included, and the description handed to the caller, are properties of each object.
- Numbers in URIs are read as strtoul does in the C locale; query attributes are separated like path attributes, as in the source.
- Debug output, the error stack, and the parameter plumbing of OpenSSL.
- The info concatenation of HKDF context parameters and the key derivation calls, which add only easy members.
- The token's cryptography, random generation and timing: functions and octets that are parameters.
- Slots of a reset provider, the quirk store, key management, signatures, encoders and decoders.
