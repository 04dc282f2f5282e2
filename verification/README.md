# A model of the chat system's tokens, revocation and message service

The project models two parts of the system and proves what they promise.

**Tokens and revocation.** `server/auth_server.cpp` encodes and decodes base64url by hand, prints a JSON payload by
concatenation, signs it, and reads the claims back with two textual scanners. `gateway/main.go` and
`server/server.cpp` revoke tokens through one Redis record per user, which every logout and every account deletion
overwrites. `ByteStrings`, `Decimal`, `Base64Url`, `Base64Bits`, `Base64Codec`, `JwtClaims`, `JwtRoundTrip` and `Jwt`
hold the codec; `Revocation` holds the services and the timed state machine, `RevokedNames` the exact conditions on
user names; `RateLimit` the counters both services use.

**The message service.** `server/msg_server.cpp` runs one thread per WebSocket session, senders, a persist thread and
remote calls over shared maps and Redis keys. `Delivery` is the step system of all of them, interleaved at every lock
and every Redis command; `Presence` adds the online key under timing assumptions; `BatchQueue`, `OfflineLists`,
`ChatCache` and `Friends` hold the write-behind queue, the two-step pop, the sorted-set cache and the friend tables of
`server/db_proxy.cpp`, and `FriendStatements` the same tables statement by statement. `MsgServer` is the code over the shared state itself, each method proved to be the run of
`Delivery` steps it stands for.

Bytes are characters below 256. HMAC is any function of key and text. The clock counts whole seconds; a Redis key with
an expiry is a value and a deadline, alive while `now < deadline`.

Where the code and its documents differ the code is followed: a token is still accepted in the second it expires
(`server/auth_server.cpp:175`), while section 4.1.4 of RFC 7519 rejects it then. That second is the one exception in
the revocation theorems, and `RevokedNames.LogoutLapses` shows that it is real. `create_jwt` escapes nothing and the
scanners search the text, so a username can hide a time: `exp` (`Jwt.ExpNameCounterexample`), or one that holds a
quoted key and a colon (`Jwt.NameWithExpCounterexample`). `JwtRoundTrip.TimeReadBack` says what is read for every name.
The theorems of `Revocation` are about users whose own names hide no time (`KeepsTimes`), among any others.
`RevokedNames` says for which names each holds: that overwriting refines the log, for exactly those (`OnlyTrackable`);
that deletion and logout are for good, for exactly the names that settle (`DeletionExactly`, `LogoutExactly`), which are
more.

## Model

| member | source | states |
|---|---|---|
| Base64Codec.Encode | server/auth_server.cpp:15-36 | The stepped loop, the in-place change of alphabet and the padding loop together compute `Encoded`, the function of which the laws below speak |
| Base64Codec.Decode | server/auth_server.cpp:38-68 | On every string, inside the alphabet or not, the loop ends without reading out of range and computes `Decoded` |
| Base64Codec.ToUrlAlphabet | server/auth_server.cpp:29-32 | Every character becomes its URL-safe form, in place and in order |
| Base64Codec.Pad | server/auth_server.cpp:39-46 | The text in the standard alphabet, filled with `=` up to a multiple of four |
| Base64Url.DecodeEncode | server/auth_server.cpp:15-68 | Decoding the encoding of any byte string gives it back |
| Base64Url.EncodedCanonical | server/auth_server.cpp:15-36 | An encoding has only URL-safe characters, hence no `=` and no `.`, never one character too many, and zero spare bits |
| Base64Url.UrlAlphabet | server/auth_server.cpp:15-32 | The character of each of the 64 values is the one of section 5 of RFC 4648, and reads back as the value |
| Base64Url.CanonicalConverse | server/auth_server.cpp:33-68 | Encoding a decoded text gives the text back exactly for canonical texts: URL-safe, length not 1 modulo 4, spare bits zero (section 3.5 of RFC 4648) |
| Base64Url.PaddingIgnored | server/auth_server.cpp:38-68 | A text decodes to the same bytes with its padding and without |
| Base64Bits.EncodedIsRegrouping | server/auth_server.cpp:15-36 | Read six bits a character, the encoding is the bit string of the input followed by fewer than six zeros: section 5 of RFC 4648 and the length ceil(4n/3) in one statement |
| Decimal.ScanIntPrinted | server/auth_server.cpp:127-142 | Scanning a printed 64-bit number with anything but a digit after it gives the number back; for the least one the negation overflows |
| Decimal.DecimalNotation | server/auth_server.cpp:89-92 | What is printed is decimal notation: one numeral below ten, else the tens before the units, a minus sign before a negative number |
| Decimal.ToStringInjective | server/msg_server.cpp:126-130 | Two integers with the same decimal text are equal |
| JwtClaims.FindInt | server/auth_server.cpp:127-142 | The cursor loops compute the claim after the first textual occurrence of the quoted key; 0 when it is missing, undefined on signed overflow |
| JwtClaims.FindStr | server/auth_server.cpp:143-167 | The cursor and escape loops compute the string claim after the first occurrence of the quoted key, empty when there is none |
| JwtClaims.MissingClaim | server/auth_server.cpp:127-147 | In any text, a key that occurs nowhere before a colon reads as 0 or as the empty string |
| JwtRoundTrip.UserIdReadBack | server/auth_server.cpp:89-92 | Whatever the username, the user id read from a payload is the one printed into it |
| JwtRoundTrip.TimeReadBack | server/auth_server.cpp:127-142 | For every username, quotes included, exactly what is read as issue time and as expiry: the name's own text if it holds the quoted key, and then the first colon from there decides |
| JwtRoundTrip.IatReadBack | server/auth_server.cpp:127-142 | The issue time is read back at every second if and only if in the quoted name no colon follows the first occurrence of the quoted key `iat` |
| JwtRoundTrip.ExpReadBack | server/auth_server.cpp:127-142 | The expiry is read back at every second if and only if the quoted key `exp` is not in the quoted name |
| JwtRoundTrip.QuoteFreeNames | server/auth_server.cpp:89-92 | Among the names without a quote, `exp` alone hides a time |
| JwtRoundTrip.ScanExact | server/auth_server.cpp:152-166 | The escape scanner returns a name exactly when the name has no quote and each backslash is followed, inside the name, by something other than `n`, `t` or a backslash |
| JwtRoundTrip.EscapedUsername | server/auth_server.cpp:152-166 | A name with one backslash and no quote but perhaps right after it is read with a line feed for `n`, a tab for `t`, the bare character for a backslash or a quote, and otherwise unchanged |
| JwtRoundTrip.UsernameReadBack | server/auth_server.cpp:89-92 | For every username, quotes included: the payload reads back to it if and only if it is such a name |
| Jwt.VerifyJwt | server/auth_server.cpp:104-178 | The program accepts the signature of exactly the tokens that are header, dot, payload, dot and the base64url text of the HMAC of header, dot and payload, header and payload free of dots; for the verdict on the claims it computes `Verify`, of which uniqueness and the round trip are proved |
| Jwt.AcceptanceExact | server/auth_server.cpp:107-122 | A token passes the signature check if and only if it is header, dot, payload, dot and the base64url text of the HMAC of the first two parts with the dot between them |
| Jwt.PayloadIsSigned | server/auth_server.cpp:117-122 | One third part passes with two payloads only if the HMACs of both texts coincide |
| Jwt.CreatedText | server/auth_server.cpp:79-102 | The text of a created token: the base64url texts of the HS256 header, of the payload and of the HMAC of these two, with dots between |
| Jwt.AcceptedHasTwoDots | server/auth_server.cpp:107-115 | Every token that passes has exactly two dots |
| Jwt.ThirdPartUnique | server/auth_server.cpp:117-122 | A header and payload have at most one accepted third part |
| Jwt.CreatedVerdict | server/auth_server.cpp:79-178 | The exact verdict on a created token for every user id, every name and every second, expiries read from the name and overflows included |
| Jwt.CreatedClaims | server/auth_server.cpp:79-178 | For every name that hides neither time, quotes or not: accepted with the true id and times up to issue + 86400, expired after |
| Jwt.TokenRoundTrip | server/auth_server.cpp:79-178 | For every secret, HMAC, 64-bit user id, name and second: the token verifies to what was put in if and only if the name is safe and not `exp`, the id is not the least one, and the second is at most issue + 86400 |
| Jwt.ExpNameCounterexample | server/auth_server.cpp:127-142 | With the username `exp` the expiry comes back as the issue second, so the token is expired one second later |
| Jwt.NameWithExpCounterexample | server/auth_server.cpp:89-92 | With a name of the quoted key, a colon and a number n, the token is accepted exactly up to second n, whenever it was created, with its true issue time |
| Revocation.AuthServer.CreateToken | server/auth_server.cpp:250-263 | One count on the name, then a token if that is within ten a minute, refused beyond; never refused without Redis |
| Revocation.NamesAreSeparate | server/auth_server.cpp:250-263 | Whatever is asked for under other names, the calls of a name are let through by fixed windows of that name's calls alone, ten in 60 seconds, unless one window of them has 2^31 |
| Revocation.AuthServer.ValidateToken | server/auth_server.cpp:265-290 | It answers claims if and only if verification accepted exactly these claims, name and times included, and no live record has a second at or after their issue; without Redis the records are skipped |
| Revocation.AuthServer.RevokeToken | server/auth_server.cpp:212-223 | Overwrites the user's record with this second and this lifetime; refuses a non-positive lifetime or a missing Redis and changes nothing |
| Revocation.HandleLogout | gateway/main.go:311-338 | The record of the user in the verified claims becomes this second until the later of the expiry and the next second, the `Logout` step of the runs; a token that does not validate changes nothing; without Redis it reports success and revokes nothing |
| Revocation.DeleteAccount | server/server.cpp:188-215 | Only after the password and the deletion succeeded does the user's record become this second for 86400 seconds, the `Delete` step of the runs; success does not depend on that |
| Revocation.RecordDecidesAsLog | server/auth_server.cpp:197-210 | Under the user's invariant the one overwritten record rejects an issue second if and only if some unexpired entry of the whole log does |
| Revocation.LogoutReachesFurther | gateway/main.go:323-330 | Why: a token that still validates was issued after every live revocation of its user, so its logout outlasts them all |
| Revocation.StepKeepsInv | server/auth_server.cpp:197-223 | Every step keeps a user's record the last and furthest-reaching entry of the log; only that user's own creations must be under names that hide no time, other users do what they like |
| Revocation.OverwritingRefinesLog | server/auth_server.cpp:265-290 | After any run, whatever names other users have, a token of a user whose own names hide no time validates if and only if it is not past its expiry and no entry of the log blocks it |
| Revocation.AnswerAsCreated | server/auth_server.cpp:265-290 | After any run, the answer to a token of such a user is its id and both times as created, and its name too if and only if the name is safe; no answer only if it is past its day or blocked |
| RevokedNames.OnlyTrackable | server/auth_server.cpp:79-178 | That refinement holds in every run with one name for the user if and only if the id is not the least integer and the name hides neither time; for any other a run breaks it |
| RevokedNames.DeletionExactly | server/server.cpp:203-207 | Deletion is for good, every token issued up to it rejected from then on but in the second that reads as its expiry, in all runs with one name for the user, if and only if the name settles: a condition on what is read from a token of second 0 |
| RevokedNames.LogoutExactly | gateway/main.go:316-330 | Logout is for good in the same sense for exactly the same names; for the others a run brings the token back |
| RevokedNames.StepKeepsGuard | server/auth_server.cpp:212-223 | Why: for such names every later step, each overwriting logout included, leaves the user's record late enough and long enough |
| RevokedNames.NameWithExpSettles | server/auth_server.cpp:89-92 | A name that reads as an expiry n of its own settles if and only if n is within the first day |
| RevokedNames.TrackableSettles | server/auth_server.cpp:127-142 | Names that hide no time settle, and so does `exp`, which hides one |
| RevokedNames.DeletionLapses | server/server.cpp:203-207 | With a name that reads as an expiry n of its own, after a deletion and a day the token is accepted again at every second up to n |
| Revocation.LogoutIsPermanent | gateway/main.go:316-330 | After any later run, whatever names other users have, a logged-out token is rejected, except that in its very expiry second it is accepted exactly when no other revocation blocks it |
| RevokedNames.LogoutLapses | server/auth_server.cpp:175 | The exception happens: for every readable name, a run in which a logged-out token is accepted again |
| Revocation.DeletionRevokesAll | server/server.cpp:203-207 | For a user with any number of names that hide no time, whatever names other users have: after a deletion every token issued up to that second is rejected, except perhaps one of that very second, 86400 seconds later |
| Revocation.NewTokenUnaffected | server/auth_server.cpp:197-210 | A token issued after all of its user's revocations validates until it expires, whatever other users do |
| Revocation.BlacklistExact | server/auth_server.cpp:197-223 | In every run whatever, all names included: while the record lives it rejects exactly the issue seconds up to the user's last revocation |
| RateLimit.RateLimiter.Check | server/msg_server.cpp:170-183 | INCR, EXPIRE on a count of one and the 32-bit comparison, as one change of one counter; other counters stay |
| RateLimit.ChecksAreFixedWindows | server/auth_server.cpp:227-240 | Over any sequence of calls the counter protocol is the independent definition of fixed windows, each letting its first `max` calls pass |
| RateLimit.OwnersAreSeparate | server/auth_server.cpp:227-240 | When calls on many keys come mixed, the calls of each owner of a key are judged by the fixed windows of that owner's calls alone, unless one of these has 2^31 |
| RateLimit.FixedWindowsExactly | server/msg_server.cpp:177-182 | It is so if and only if no window has 2^31 calls: that call is let through whatever the allowance |
| RateLimit.WindowAcceptsMin | server/msg_server.cpp:170-183 | A window of n calls lets exactly min(n, max) pass |
| RateLimit.SlidingBound | server/msg_server.cpp:170-183 | Any interval of the window's length lets at most 2 max - 1 calls pass, wherever it begins |
| RateLimit.SlidingBoundSharp | server/msg_server.cpp:170-183 | For every allowance some calls reach that bound |
| Delivery.NoStaleSession | server/msg_server.cpp:647-656 | In every reachable state, several sessions of one user included, a map entry leads to a session that authenticated as that user and has not begun its cleanup |
| Delivery.RoutingStep | server/msg_server.cpp:978-983 | Every step keeps that, registration and cleanup of other sessions included |
| Delivery.OnlineExactly | server/msg_server.cpp:70-86 | In every run a user looks online exactly within the thirty seconds after the last refresh that no deletion of the key has followed |
| Delivery.ConservedStep | server/msg_server.cpp:287-300 | Every step leaves each accepted message in exactly one place: with its sender, on a socket, lost on the way there in one of two ways, or pushed |
| Delivery.BoxStep | server/msg_server.cpp:93-104 | Every step, with any number of pops of one list under way, keeps each list the end of its log and each pop's reading a stretch of it; two stretches are disjoint or their pops overlapped |
| Delivery.SharedExactly | server/msg_server.cpp:93-104 | Two pops read a message in common if and only if one began while the other was under way with nothing deleted since the other began, and then it reads all of that again |
| Delivery.AtMostOnce | server/msg_server.cpp:781-791 | Over all interleavings, overlapping pops included: two frames with one message, or a frame and a pull, both come from the offline list and from pops that overlapped; each frame goes to a session of its recipient |
| Delivery.OverlapRepeats | server/msg_server.cpp:93-104 | Overlap is enough: in any state two pulls that both read before either deletes are both handed the whole list |
| Delivery.ReachedExactly | server/msg_server.cpp:93-104 | In every drained run, overlapping pops included, an accepted message reached someone if and only if its sender did not lose it and, once pushed, some pop that read it passed it on |
| Delivery.DeliveredUnlessLost | server/msg_server.cpp:652-680 | For a recipient no two of whose pops overlapped, whatever happened to other lists: delivered if and only if no step lost it |
| Delivery.ExactlyOnce | server/msg_server.cpp:652-680 | In every drained run without overlapping pops no message went into two frames, to two pops, or to a frame and a pull, and everything was delivered if and only if no step was lossy |
| Presence.MapExact | server/msg_server.cpp:647-656 | For a user with one live session at a time, whatever others do: the map has the user exactly while the session has registered and not cleaned up |
| Presence.PresenceAgrees | server/msg_server.cpp:734-738 | If besides that session refreshes in time and no remote call for the user interferes, outside the gaps at authentication and cleanup the online key lives exactly while the user has a socket |
| BatchQueue.BuildRequest | server/msg_server.cpp:1024-1026 | The request gets every record in order, and every slot of the batch is left moved from |
| BatchQueue.Queue.Requeue | server/msg_server.cpp:1034-1036 | The failure loop appends the batch's slots behind what came meanwhile |
| BatchQueue.PersistOnce | server/msg_server.cpp:1015-1038 | A round hands over the queue as it was or, below fifty records, nothing; after a failed call as many moved-from slots come back as records went out: the run of `Take` and the call's outcome |
| BatchQueue.HandOverKeepsOrder | server/msg_server.cpp:1015-1038 | In all runs, failed calls included: handed over, in flight and queued add up to the accepted count, intact records keep the order of acceptance and come once, batches hold at least fifty |
| BatchQueue.HandOverIsFifo | server/msg_server.cpp:262-271 | Handed over, in flight and queued is the log of accepted messages, in order and intact, if and only if no call fails |
| OfflineLists.PushesAccountedFor | server/msg_server.cpp:88-104 | After any run on one list the log of pushes is, in order, what each pop returned followed by what came too late for it, then what is listed |
| OfflineLists.ServicePushesAccountedFor | server/msg_server.cpp:652-680 | In every run of the whole service in which no two pops of a user's list overlapped: the finished pops, all of them, each once and in order, with what each returned and where it stood in the log; the parts between are what came too late and add up to what was dropped |
| OfflineLists.ExactlyOnceFifo | server/msg_server.cpp:93-104 | The pops return every push once and in order if and only if none fell between an LRANGE and its DEL |
| ChatCache.KeyFaithful | server/msg_server.cpp:126-130 | Two conversations share a key if and only if they are between the same two users |
| ChatCache.ZaddRepresents | server/msg_server.cpp:136 | A ZADD keeps the set ordered and each member once, with its newest score |
| ChatCache.CacheRefinesLog | server/msg_server.cpp:132-138 | For every run and pair: while alive, the cache holds the payloads of the last stretch without a two-hour pause, each once, with the second it was last sent |
| ChatCache.CacheForgets | server/msg_server.cpp:132-138 | Two hours after the pair's last message the cache has nothing of it |
| ChatCache.CacheIsConversation | server/msg_server.cpp:132-138 | Without such a pause and without equal payloads it is the whole conversation, both ways |
| ChatCache.PagesTile | server/msg_server.cpp:140-154 | Successive pages up to the first empty one list the set by non-increasing second, nothing missing and nothing twice |
| ChatCache.OwnStepsTile | server/msg_server.cpp:535-557 | A client that steps by its own limit sees every entry once, newest first |
| ChatCache.NegativeOffset | server/msg_server.cpp:140-154 | A negative offset counts from the oldest entry; exactly which entries the page then has |
| ChatCache.PagesAreConversation | server/msg_server.cpp:535-557 | Together: paging shows every message of such a conversation once, newest first, and nothing else |
| Friends.FriendDb.GetFriendRequestsByUser | server/db_proxy.cpp:317-351 | The fetch loop returns the requests to the user with the status asked for, newest first |
| Friends.FetchedAre | server/db_proxy.cpp:317-351 | Those are exactly the stored requests to the user with that status, any status when it is negative |
| Friends.FetchedOrder | server/db_proxy.cpp:317-351 | Their ids strictly descend: newest first, each once |
| Friends.FriendDb.CreateFriendship | server/db_proxy.cpp:366-385 | Both directions, each ignored when its row exists |
| Friends.FriendDb.DeleteFriendship | server/db_proxy.cpp:415-425 | Both directions go, the other rows stay in order |
| Friends.FriendDb.HandleFriendRequest | server/msg_server.cpp:416-472 | The loop finds the request only if it was sent to the user; its status changes by id alone; acceptance of a found one befriends |
| Friends.SecondCallChangesNothing | server/msg_server.cpp:455-472 | The second of the two create calls of an acceptance changes nothing |
| Friends.AccepterNameNotStored | server/msg_server.cpp:464-472 | So the accepting user's own name never reaches a new friendship's row |
| Friends.AnswerStores | server/msg_server.cpp:424-472 | Over any table: an acceptance of a request sent to the user adds the user's row with the sender's name and the sender's row without a name, each unless it is there; any other answer adds nothing |
| Friends.DeleteUndoesBefriend | server/db_proxy.cpp:415-425 | Deleting a new friendship restores the table |
| Friends.WithoutPairConcat | server/db_proxy.cpp:415-425 | A deletion judges each row by itself and keeps the order of the rest |
| Friends.FriendshipInvariant | server/db_proxy.cpp:366-425 | After any run of whole operations friendship is symmetric, has one row per ordered pair, and goes back to a stored request between the same two users |
| FriendStatements.AnswerAlone | server/msg_server.cpp:424-472 | The query, the update and the four inserts of an answer, with nothing between them, are that one operation |
| FriendStatements.OneRowAlways | server/db_proxy.cpp:366-385 | However the single statements of answers and deletions interleave, each ordered pair has one row and every row goes back to a request |
| FriendStatements.SymmetryOfStatements | server/db_proxy.cpp:366-425 | And friendship is symmetric outside creations under way, provided no deletion of a pair falls between the last two inserts of its creation |
| FriendStatements.DeleteBeforeLastInsert | server/db_proxy.cpp:415-425 | In any state where such a deletion can fall, it leaves one row without its reverse and nothing under way to put it right |
| MsgServer.MsgServer.Dispatch | server/msg_server.cpp:287-300 | With a live online key the message is written to the socket in the map, if there is one and the write succeeds, and to no list; otherwise it is the last of the recipient's list, the other lists stay and no socket has it. These are the three sender steps of `Delivery` |
| MsgServer.RefreshDecides | server/msg_server.cpp:70-86 | After any run: thirty seconds after the recipient's last refresh, or after a deletion of the key, a message goes to the end of the recipient's list and to no socket; before, to the mapped socket and to no list |
| MsgServer.MsgServer.SendMessage | server/msg_server.cpp:252-323 | One more queued record with the message's own sender, recipient, content and type, behind all others; one cached payload, one dispatch, the next message id |
| MsgServer.MsgServer.SendAction | server/msg_server.cpp:739-801 | The same with type 0, behind the counter of the sender; a refused call changes that counter and nothing else, not even the next message id; the log of actions and verdicts grows by this one |
| MsgServer.SendersAreSeparate | server/msg_server.cpp:745-753 | In every state the service reaches, and whatever the other users send, the verdicts on a user's actions are fixed windows of that user's own actions, thirty in 60 seconds, unless one window of them has 2^31 |
| MsgServer.RateKeyFaithful | server/msg_server.cpp:746 | The counter key is `msg:` and the printed user id, and two users share one only if they are the same |
| MsgServer.MsgServer.Authenticate | server/msg_server.cpp:647-680 | Key, map, LRANGE, DEL and one frame: the five session steps of `Delivery` |
| MsgServer.MsgServer.PopOfflineMsgs | server/msg_server.cpp:93-104 | LRANGE, the copying loop and DEL with nothing between them: the whole list, in order, and it is gone |
| MsgServer.MsgServer.PullOfflineMessages | server/msg_server.cpp:325-347 | The two steps of a remote pop, whose snapshot it returns |
| MsgServer.MsgServer.GetHistoryMessages | server/msg_server.cpp:533-579 | From offset o with a positive limit n, or 50 for any other: the min(n, live - o) members that begin with the o-th newest live entry, in that order, and from o = live on the database with this n and o; negative offsets as ZREVRANGE has them; the signed overflow of the range's end is an outcome of its own |
| MsgServer.SentOfflineArrives | server/msg_server.cpp:647-680 | A message sent while its recipient looks offline is the last of the frame that the recipient's next session writes, after all that was listed before it |

## Left out

- Clock: whole seconds, never backwards; a logout's validation, lifetime and revocation fall in one second and no other step comes between them.
- Names: a user with several names of which one hides a time is covered by the blacklist theorem alone.
- Signatures: HMAC is uninterpreted, and the revocation runs contain no token with a valid signature that the service did not create.
- Redis keys: per-user keys are maps indexed by the user id, since printed ids are distinct; Redis answers every command, and its absence is modelled for tokens and revocation only.
- Commands: each Redis command and each locked section is one step, and in `FriendStatements` each SQL statement, while `Friends` takes whole operations; INCR with its EXPIRE is one step, and data races on the shared Redis context are not modelled.
- Delivery.ExactlyOnce: is about runs in which no two pops of one list overlap, because the code hands a list out twice otherwise (`Delivery.OverlapRepeats`); `Delivery.ReachedExactly` is about all runs.
- Records: what a moved-from record holds is unspecified, so contents after a failed database call are not claimed.
- Persistence: a queue below fifty records is never written, so no eventual persistence is claimed.
- JSON: payloads are byte strings handed in; parsing and serialising them is library code.
- Scores: whole seconds; Redis keeps them as doubles, exact at this size.
- Database paging: what `GetHistoryMessages` reads from the database, and how that meets the cached rows.
- SQL: text, escaping and fixed buffers in `server/db_proxy.cpp`; statements succeed, and requests of one second are fetched newest id first.
- Frames: greetings, acknowledgements, typing notices and the delivery of friend requests, which have lists of their own.
- Accounts: login, registration, password change and the user table.
- Transport: gRPC, WebSocket, HTTP, start-up and command lines.
