# Verification of TnCam

A Dafny model of the state machines, protocols and codecs of TnCam, a card-sharing server, with proofs
about them. `dafny verify dfyconfig.toml` checks everything.

Each part comes in two layers. The first says what the code computes, as functions on values, and proves
the properties. The second has the code's own form, classes whose methods update fields, arrays and lists
in loops, and every method is proved to compute what the functions say. So a property of a function is a
property of the method.

What the functions say is in turn pinned down by laws that do not use their names: where every byte of a message
stands (`CardLayout`, `PushLayout`, `FilterLayout`), which answer is given in which case, in bytes, seconds and
counts (`CwCycleAnswers`, `CardOffers`, `CardRules`, `KeyRules`, and the closing sections of `CccamLogin`,
`CccamCrypt`, `CwScramble` and `GboxCipher`), and known values of the ciphers. A different constant, order or
branch contradicts one of them.

## The parts

**CCcam cipher, login and framing** (`Bytes`, `CccamCrypt`, `CwScramble`, `CccamLogin`, `CccamSession`,
`CccamEndpoint`).
The stream cipher mixes an RC4-like table walk with a byte that accumulates the plaintext. The central law is
that table, counter and sum depend on how many bytes were processed and the state on their exclusive or. Client
and server derive two blocks each from one seed (SHA-1 is an arbitrary function), the password goes into one
of them, and from then on whole frames are encrypted while header and payload are decrypted separately. The
result is lockstep over all interleavings of sends and receives in both directions. Three facts about the code
stand out. A message arrives exactly if it fits the receiver's limit, the two length bytes and the buffer; the
code compares with the limit only, and every caller passes a limit that is less than four bytes below the
buffer, so that a payload can be longer than the buffer holds. The password check tells apart no more than
the length and the exclusive or of the characters. And it decrypts the received six bytes in place, so after one
account of the same 20-character name has failed, the next one is judged on what that attempt left behind:
there is always a password that makes the server refuse the right one after it.

**Control-word cycle checker** (`CwCycle`, `CwCycleAnswers`, `CwCycleList`, `CwCycleChecker`). Entries are never changed in
place: an answer marks the entry it found as old, changes a copy, and puts the copy on top. The list with its
separate counter refines a map from identity to latest entry, exactly as long as the requests' ECM lengths do not
mix open ones with two different known ones; stage machine, ring index and the stage 4 counter are
bounded in every run; verdicts 0 and 1 are characterised exactly, the half that stays alternates, the ring holds
the last 15 stored requests, and none of those is ever called a bad cycle.

**Cards** (`NodeCodec`, `Cards`, `CardCodec`, `CardLayout`, `CardMessage`, `CardList`, `CardHops`,
`ShareUpdate`, `CardRules`, `CardNetwork`, `CardOffers`, `CardPaths`, `CardIds`, `CardRuns`, `CardLoop`, `CardExchange`). The card message and its parser
are inverse up to a projection that is spelled out. The three deduplication policies keep one card per class with the smallest hop (default and
MINIMIZE_HOPS) or conserve coverage (MINIMIZE_CAID). The comparison of the old and the new list conserves cards
and ids. In a network of servers, whose steps rebuild lists, number and send cards, receive and lose them, every
remote card held has a loop-free path as long as its hop says, and reshare bounds how far it gets. A share id
never comes to name another card, so a withdrawal, which carries an id alone, takes the card it means. Under
MINIMIZE_CAID there is a run in which a card comes back to its own node, so loop-freedom holds in all runs
exactly under the other policies.

**Gbox buffer cipher** (`GboxCipher`). Five nested routines mix a buffer in place under a rotating four-byte
key; head and tail blocks may overlap. Decryption undoes encryption and conversely for every buffer of at least
nine bytes, because the key is back after 32 rotations.

**Cache exchange** (`CachePush`, `CccamPush`, `PushLayout`, `PushMessage`, `PushNetwork`, `CacheFilter`,
`FilterLayout`, `CacheFilterTable`).
The push message in both protocols, the hop limits with their write-back, the network of peers, and the filter
table in both of its wire forms. In the network the peer ids are stored as the code does it, from keep-alives or
from the first message, and turn out right; every pushed request has a loop-free node list within the limits at
both ends, carries what was injected, and each word is pushed finitely often. The messages between the nodes
are the bytes of the message format. The CCcam form of the message is read back to the same request, so it
could take the place of the camd35 form there.

**Reply attribution** (`ExtendedEcm`). The one-byte index of extended mode, its reuse after 255 requests,
and the exact number of further requests up to which a reply is attributed rightly.

**Key store** (`KeyStore`, `KeyRules`, `KeyContainer`). A growing array with chained Irdeto values refines a map.

## Shared assumptions

- Linked lists are sequences; an insert at an exhausted iterator appends, one after removing the first element
  too. Allocation succeeds and clears what the code asks to be cleared.
- Each call is atomic. Widths are explicit where the code depends on them (bytes, 16-bit differences, signed
  8-bit limits, 32-bit fields of messages); times and unbounded counters are integers.
- Where a comment and the code disagree the code is followed. The comment on `num_same_providers`
  (module-cccshare.c:809-812) speaks of equality, the code counts common providers. The comment in the push
  checks speaks of ten nodes, the code takes the configured limit. `cacheex_maxhop_lg` caps the configured
  value at ten but never below the other limit, so the result can be above ten.

## Model

| member | source | states |
|---|---|---|
| CccamCrypt.BlockLaw | module-cccam.c:87-109 | After any plaintext the table, counter and sum are those of as many data-independent turns, and the state changed by the exclusive or of all plaintext bytes |
| CccamCrypt.PlainOfCipher | module-cccam.c:87-109 | Decrypting with an equal block undoes encryption |
| CccamCrypt.CipherOfPlain | module-cccam.c:87-109 | Encrypting with an equal block undoes decryption |
| CccamCrypt.Concat | module-cccam.c:87-109 | Processing a + b is processing a and then b, for the output and for the block |
| CccamCrypt.ConcatPlain | module-cccam.c:87-109 | Decrypting in two pieces is decrypting at once |
| CccamCrypt.TableAlwaysPermutation | module-cccam.c:66-109 | Whatever the key and whatever was processed, the table holds 256 different bytes |
| CccamCrypt.EveryKeyByteCounts | module-cccam.c:66-85 | Where two keys of one length first differ, the running indices of the key setup part |
| CccamCrypt.FirstSwaps | module-cccam.c:66-85 | For the key 1, 2 the running index is 1, 3 and 6, and the table then begins 1, 3, 6, 0, 4, 5, 2 |
| CccamCrypt.KeyedState | module-cccam.c:66-109 | After keying and any plaintext the counter is the number of bytes and the state the first key byte with all of them |
| CccamCrypt.FirstBytes | module-cccam.c:87-109 | From a table in order the first three bytes are masked with 2, 5 and 7 and with the state, which takes in every byte |
| CccamCrypt.CryptBlock.InitCrypt | module-cccam.c:66-85 | The key setup in place leaves the block that InitBlock describes |
| CccamCrypt.CryptBlock.Crypt | module-cccam.c:87-109 | The loop over the buffer leaves the ciphertext (or plaintext) of that slice, everything else untouched, and the block that has absorbed the plaintext |
| CwScramble.WordBackIff | module-cccam.c:150-196 | A control word scrambled with one 64-bit node id and unscrambled with another comes back exactly if the two ids are equal |
| CwScramble.CwCrypt | module-cccam.c:150-196 | The in-place loop computes that scrambling |
| CwScramble.Rc4Twice | module-cccam.c:111-132 | Two walks from the same table, counter and sum give the data back, whatever the states and modes |
| CwScramble.Rc4Crypt | module-cccam.c:111-132 | The loop leaves the masked data and a block turned once per byte, whose state took in the plaintext |
| CwScramble.Masked | module-cccam.c:150-196 | Byte i is masked with the node id shifted by 4 i bits, the card id shifted by 2 i bits, and in odd places with all ones |
| CwScramble.Rc4Known | module-cccam.c:111-132 | From a table in order the first three mask bytes are 2, 5 and 7, whatever the state |
| CccamSession.ReceiveOfSend | module-cccam.c:776-872 | Encrypting a frame at once and decrypting header and payload separately fit: the receiver gets the frame, an equal block and the bytes behind it |
| CccamSession.ArrivesIffFits | module-cccam.c:776-872 | A message arrives as sent, inside the buffer, if and only if its payload is no longer than the limit, than two length bytes hold, and than the buffer has behind the header |
| CccamSession.StaysInsideIff | module-cccam.c:776-872 | Every receive stays in its buffer exactly if the buffer has four bytes more than the largest payload that the limit and the length bytes let through |
| CccamSession.ServerDataLeavesIff | module-cccam.c:4504-4507 | With the buffer of 1024 bytes and the limit 1023 of the first receive after the login, the buffer is left exactly for payloads of 1021 to 1023 bytes |
| CccamSession.FrameBytes | module-cccam.c:878-950 | A frame is flag, command, length with the high byte first, and payload; under the command 0xFFFF the buffer goes out as it is |
| CccamSession.ReceiveAnswers | module-cccam.c:776-872 | What a receive answers and leaves for every limit and every number of bytes, and when it stays inside |
| CccamSession.AnswersUnderFlag | module-cccam.c:823-917 | A side that has received a message sends its next one under the flag of that message |
| CccamLogin.OtherTrial | module-cccam.c:4421-4424 | A trial with another password of the same length gives the expected bytes but for the first, which is off by the two exclusive ors |
| CccamLogin.PassesIffAlike | module-cccam.c:4421-4430 | A password of the right length passes on a client's check exactly if its characters have the same exclusive or |
| CccamLogin.RearrangedIsAlike | module-cccam.c:4421-4430 | So any rearrangement of a password passes for it |
| CccamLogin.FirstAccountAcceptedIff | module-cccam.c:4399-4436 | The first account of the name, with a password of the client's length, is accepted exactly if the two passwords are alike |
| CccamLogin.AccountAcceptedIff | module-cccam.c:4399-4436 | An account with the client's own password, behind any number of accounts of the same 20 characters, is accepted if and only if none of them passes and their trials together leave the six bytes as they were |
| CccamLogin.SecondAccountAcceptedIff | module-cccam.c:4399-4436 | Behind one other password of the same length the right account is accepted if and only if the check sent reads like the expected one with its first byte off by the two exclusive ors |
| CccamLogin.RightPasswordRefused | module-cccam.c:4399-4436 | For every name, password and session there is an account of that name that, coming first, makes the server refuse the right password |
| CccamLogin.FoundBearsName | module-cccam.c:4388-4437 | The account found agrees with the client's name in 20 characters |
| CccamLogin.FirstOfNameFound | module-cccam.c:4388-4437 | An account that agrees in 20 characters, behind accounts that do not, is found exactly if its password is alike |
| CccamLogin.VerdictShows | module-cccam.c:4388-4472 | The account found and its name, why it is refused, and what it is sent when accepted |
| CccamLogin.ServerAnswers | module-cccam.c:4340-4472 | What the server answers to a proof and a name of the right length: the name it decrypts, control characters, and the length of the check |
| CccamLogin.ServerNeedsMessages | module-cccam.c:4329-4374 | Missing messages and messages of another length are refused with their codes |
| CccamLogin.ClientSays | module-cccam.c:4771-4801 | What the client says, as its peer decrypts it |
| CccamLogin.SixtyFourCount | module-cccam.c:4413-4421 | Of a password 64 characters count |
| CccamLogin.ClientAcceptsIff | module-cccam.c:4803-4818 | The client takes an answer exactly if twenty bytes decrypt to CCcam and anything |
| CccamLogin.HalfSeedCounts | module-cccam.c:134-148 | Two seeds are masked alike exactly if their first eight bytes are the same |
| CccamLogin.SeedMasked | module-cccam.c:134-148 | The masked seed place by place: CCcam over the first six bytes, and products of the place and the byte in the second half |
| CccamLogin.AgreedOn | module-cccam.c:4308-4323 | What is agreed on, told from the two plaintexts: both blocks with counters 16 and 20 and their states, and the proof as the digest under the other block |
| CccamLogin.LoginSucceeds | module-cccam.c:4315-4503 | From one seed, with the password or one alike in the first account of the name, the server accepts, the client accepts the answer, and each encryption block equals the other side's decryption block |
| CccamSession.SendKeepsLockstep | module-cccam.c:878-952 | A send keeps the lockstep invariant of its direction |
| CccamSession.RecvKeepsLockstep | module-cccam.c:776-872 | A receive keeps the invariant and takes exactly one message off the wire |
| CccamSession.RunKeepsLockstep | module-cccam.c:776-952 | In every interleaving of sends and receives in both directions each receive stays in its buffer and returns the next frame the other side sent |
| CccamSession.QuietMeansEqual | module-cccam.c:776-952 | Nothing is in flight exactly when everything sent was received, and then the two blocks are equal |
| CccamSession.LoginThenLockstep | module-cccam.c:4772-4821 | Login from one seed and then lockstep over every run |
| CccamEndpoint.CcXor | module-cccam.c:134-148 | The in-place loop computes the masked seed |
| CccamEndpoint.Endpoint.StartServer | module-cccam.c:4315-4325 | The server's two blocks after the key agreement |
| CccamEndpoint.Endpoint.StartClient | module-cccam.c:4772-4785 | The client's two blocks and its proof: the mirror of the server's |
| CccamEndpoint.Endpoint.CmdSend | module-cccam.c:878-952 | What goes on the wire and the encryption block afterwards, with and without header |
| CccamEndpoint.Endpoint.MsgRecv | module-cccam.c:776-872 | Result, buffer, flag, block and unread bytes in every case, errors included, and whether the code would leave the buffer |
| CccamEndpoint.Endpoint.LoginClient | module-cccam.c:4787-4803 | The three login messages |
| CccamEndpoint.Endpoint.FindAccount | module-cccam.c:4399-4436 | The loop over the accounts, which decrypts the same six bytes again for every account |
| CccamEndpoint.Endpoint.LoginServer | module-cccam.c:4329-4503 | Acceptance or the error code for every message that fails, is too short or is wrong, and the blocks left behind |
| CccamEndpoint.Connect | module-cccam.c:4315-4503 | Two endpoints that log in end with equal blocks crosswise |
| CwCycle.JudgeKeeps | module-cw-cycle-check.c:265-578 | Every answer keeps: stage within 0..4, stage 3 exactly with a known half (else 2), ring index within 0..14; and the stage 4 counter bound when peers are not believed |
| CwCycle.RunKeeps | module-cw-cycle-check.c:265-578 | The same along every sequence of answers for an entry |
| CwCycle.Stage4Counts | module-cw-cycle-check.c:519-549 | A learning pass in stage 4 leaves it or counts one up, never beyond 13 |
| CwCycle.LeavesStage4 | module-cw-cycle-check.c:519-549 | Stage 4 is left within 14 learning passes |
| CwCycle.VerdictZeroIff | module-cw-cycle-check.c:294-376 | Verdict 0 is given if and only if the entry is in its window, the named half equals the stored one, the other half does not, and fewer bytes than the sensitivity agree |
| CwCycle.VerdictZeroStores | module-cw-cycle-check.c:648-676 | A verdict 0 is stored, flips the half, keeps the word and tells the request |
| CwCycle.HalvesAlternate | module-cw-cycle-check.c:294-376 | Along consecutive verdict-0 answers the half that stays strictly alternates |
| CwCycle.LearnedIff | module-cw-cycle-check.c:486-499 | A half is learned exactly if it alone changed and the word is not null |
| CwCycle.EntersStage3Iff | module-cw-cycle-check.c:476-549 | A learning pass ends in stage 3 exactly if one half changed alone, from stage 2 only after a steady cycle; that half is expected to stay next |
| CwCycleAnswers.LearningAnswers | module-cw-cycle-check.c:451-541 | Every stage after a learning pass for every stage before it, with the return code, told in seconds and bytes |
| CwCycleAnswers.StageRisesIff | module-cw-cycle-check.c:451-482 | Below stage 2 a learning pass goes up exactly if the answer is at most one second off the cycle time |
| CwCycleAnswers.LearningTimes | module-cw-cycle-check.c:453-577 | Cycle time, lock, lateness and stage 4 counter after a learning pass, and what it leaves alone |
| CwCycleAnswers.LockedAnswers | module-cw-cycle-check.c:430-563 | A locked entry learns nothing |
| CwCycleAnswers.ToldAnswers | module-cw-cycle-check.c:265-295 | With a peer's cycle time and half the entry takes them over, or the word is the same |
| CwCycleAnswers.ContinuedAnswers | module-cw-cycle-check.c:296-376 | A word that continues the cycle is verdict 0, with the halves exchanged, what is announced, and the times |
| CwCycleAnswers.RefusedAnswers | module-cw-cycle-check.c:300-425 | Every other word in time is the same, repeated, let through for a fallback, or bad, with its code |
| CwCycleAnswers.RepeatedAnswers | module-cw-cycle-check.c:380-404 | For a repeated request the first place of the ring that holds it decides between same word and old |
| CwCycle.RunKeepsRing | module-cw-cycle-check.c:654-664 | Along every run the ring holds the last 15 stored requests, the newest where the index points |
| CwCycle.RepeatedIsNotBad | module-cw-cycle-check.c:378-404 | One of the last 15 stored requests is never answered as a bad cycle |
| CwCycle.BadCycleIff | module-cw-cycle-check.c:378-428 | Verdict 1 is given exactly for a word in the window that neither is the stored one nor continues the cycle, for a request the ring does not hold, unless a fallback reader is let through |
| CwCycle.AnnouncesOwn | module-cw-cycle-check.c:357-376 | Whatever the times, what is announced is the low byte of the entry's own cycle time below 128, which is that cycle time exactly if it is not negative |
| CwCycle.JudgeKeepsCycle | module-cw-cycle-check.c:357-376 | With times in order, cycle times stay non-negative and those announced are below 128 and the entry's own |
| CwCycleList.AnswerKeepsCount | module-cw-cycle-check.c:220-252 | The separate counter is the number of entries not marked old after every answer, and all stage invariants hold |
| CwCycleAnswers.StoredShows | module-cw-cycle-check.c:640-680 | What a stored entry bears, and what it keeps |
| CwCycleAnswers.NewEntryShows | module-cw-cycle-check.c:592-637 | What a new entry bears, with and without a peer's word |
| CwCycleAnswers.AnswersFor | module-cw-cycle-check.c:220-236 | An entry answers for its caid, provider, service and channel, and its length unless one of the two is open |
| CwCycleAnswers.CheckableIff | module-cw-cycle-check.c:115-143 | Which words are checked at all |
| CwCycleAnswers.NothingKnown | module-cw-cycle-check.c:590-640 | A request that no entry answers for makes a new one on top unless there are more than configured |
| CwCycleAnswers.FirstIsAsked | module-cw-cycle-check.c:218-260 | The first entry that answers is marked old, its copy goes on top if it is to be stored, and the counter goes with it |
| CwCycleAnswers.CleanupKeeps | module-cw-cycle-check.c:152-176 | Cleanup keeps exactly the entries of the minutes configured and half a minute |
| CwCycleList.CleanKeepsCount | module-cw-cycle-check.c:145-188 | Cleanup keeps the counter right |
| CwCycleList.AnswerKeepsUnique | module-cw-cycle-check.c:220-684 | While the requests' ECM lengths are not mixed, an entry that is not old is the first of its identity |
| CwCycleList.AnswerKeepsOrder | module-cw-cycle-check.c:648-684 | An answer at a time that no entry is ahead of keeps the list ordered by age |
| CwCycleList.CleanKeepsWindow | module-cw-cycle-check.c:145-188 | Cleanup keeps exactly the entries within the keep window |
| CwCycleList.ListRefinesMap | module-cw-cycle-check.c:220-684 | While the lengths are not mixed, a call on the list of clones is a call on the map from identity to latest entry: same verdict, and the new list stands for the new map |
| CwCycleList.CountIsLiveKeys | module-cw-cycle-check.c:220-252 | The counter is the number of identities with an entry that is not old |
| CwCycleList.EveryRunUnique | module-cw-cycle-check.c:145-684 | In every run whose lengths are not mixed, keys are unique among live entries and the counter counts them |
| CwCycleList.UniqueIffNotMixed | module-cw-cycle-check.c:220-240 | Keys stay unique in every run exactly if the lengths that requests may carry are not mixed: not both an open one and two different known ones |
| CwCycleList.MixedLengthsBreakKeys | module-cw-cycle-check.c:220-240 | The run from the empty list with lengths a, b, open and a again, in order of time, after which two live entries share the key of a |
| CwCycleList.EveryRunOrdered | module-cw-cycle-check.c:145-684 | In every run in order of time the list is ordered by age and no entry has a negative cycle time |
| CwCycleList.EveryAnnouncement | module-cw-cycle-check.c:357-376 | In every run in order of time, a cycle time that is announced is below 128 and is that of a stored entry, with a half of 0 or 1 |
| CwCycleList.EveryRunStages | module-cw-cycle-check.c:145-684 | Stage invariants hold in every run, whatever lengths and times |
| CwCycleAnswers.EveryEntry | module-cw-cycle-check.c:145-684 | From the empty list, the bounds of stage, next half, ring place and stage 4 counter of every entry of every run |
| CwCycleChecker.Checker.CountCwPart | module-cw-cycle-check.c:89-119 | The loop counts the equal bytes of the half that should change |
| CwCycleChecker.Checker.JudgeClone | module-cw-cycle-check.c:265-578 | The branching on the clone gives the verdict of the specification |
| CwCycleChecker.Checker.CheckCwCycle | module-cw-cycle-check.c:190-690 | The whole call: refusal, search, marking, judging, storing, new entry |
| CwCycleChecker.Checker.Cleanup | module-cw-cycle-check.c:145-188 | Every two minutes the list is cut at the first entry too old and the counter adjusted |
| Cards.SameCardEquivalence | module-cccam.c:1529-1534 | same_card is an equivalence |
| Cards.CopyIsSame | module-cccshare.c:762-786 | The copy that enters a list is the same card with the same hop, and keeps a path without repetitions |
| Cards.MergedProvidersMembers | module-cccshare.c:697-724 | Merging provider lists gives their union and makes no repetition |
| CardRules.ToldApartBy | module-cccam.c:1502-1534 | What tells two cards apart, field by field, and that nothing else does |
| CardRules.MergedAcross | module-cccam.c:1520-1527 | For merging neither remote id, groups nor nodes count |
| CardRules.CopyKeeps | module-cccshare.c:700-790 | What a copy keeps and what it has once |
| CardCodec.RoundTrip | module-cccam.c:2447-2597 | read_card undoes write_card for every card that fits the message, up to the stated projection |
| CardLayout.FieldsAt | module-cccshare.c:126-145 | Where id, remote id, caid, hop, reshare, serial and the counts stand in a written card |
| CardLayout.ProviderAt | module-cccshare.c:146-158 | Where provider k stands |
| CardLayout.AssignedAt | module-cccshare.c:160-232 | Where service k assigned stands |
| CardLayout.RejectedAt | module-cccshare.c:180-249 | Where service k rejected stands |
| CardLayout.NodeAt | module-cccshare.c:252-270 | Where the number of nodes and node k stand, the own one last |
| CardLayout.ServicesOfTable | module-cccshare.c:161-216 | Of a card of a service table its first 240 services and those of the refused tables |
| CardLayout.ServicesOfCard | module-cccshare.c:217-249 | Of other cards the first 200 good services and those blocked for good |
| CardLayout.RefusedIff | module-cccam.c:2447-2597 | Which messages are refused by read_card |
| CardLayout.ReadShows | module-cccam.c:2447-2597 | What a card that was read bears, field by field |
| CardLayout.ReadProvider | module-cccam.c:2447-2597 | And provider k of it |
| CardLayout.ReadLists | module-cccam.c:2447-2597 | And its services and nodes |
| CardCodec.ForwardedSize | module-cccshare.c:125-265 | A received card written again is eight bytes longer, less the services that are cut |
| CardCodec.ForwardedCardTooLong | module-cccshare.c:125-265 | A card received in 1017 bytes whose message with the own node is one byte longer than the buffer |
| CardMessage.WriteCard | module-cccshare.c:125-265 | The buffer filled at a moving offset holds the encoding, and the offset is its length |
| CardMessage.ReadCard | module-cccam.c:2447-2597 | The parsing loops compute the decoding, and refuse what is too short |
| CardList.DefaultDeduplicates | module-cccshare.c:1039-1077 | Folding any sequence of cards leaves exactly one card per class of same_card, with the smallest hop offered in that class |
| CardList.CountPredictedIff | module-cccshare.c:950-960 | The provider count predicted before a merge is never too small, and is the count after it exactly if no new provider is repeated |
| CardList.CaidConserves | module-cccshare.c:945-991 | Merging by CAID keeps for every class exactly the union of providers and groups offered, and no card comes to exceed CS_MAXPROV or to name a provider twice |
| CardList.FoldFromOffer | module-cccshare.c:994-1077 | Without CAID merging every listed card has hop, path and reshare of an offered one |
| CardList.ServerList.AddCard | module-cccshare.c:1039-1077 | The default branch on the list in place, and whether it reports a change |
| CardList.ServerList.AddCardCaid | module-cccshare.c:945-991 | The CAID branch in place |
| CardList.ServerList.AddCardHops | module-cccshare.c:994-1036 | The hop branch in place |
| CardList.ServerList.NumSameProviders | module-cccshare.c:813-838 | The nested loops count the common providers |
| CardList.ServerList.EqualProviderLists | module-cccshare.c:844-872 | The nested loops decide whether every provider of one list is in the other, of the same length |
| CardHops.EqualIsSame | module-cccshare.c:844-872 | For lists without repetitions equal_providers means the same set of providers |
| CardHops.RepetitionsBreakSymmetry | module-cccshare.c:844-872 | With repetitions equal_providers depends on the order of its arguments |
| CardHops.OfferedTwiceIff | module-cccshare.c:994-1036 | A copied card offered twice leaves one card exactly if it names no provider twice, and otherwise two of one class |
| CardHops.RepeatedProviderStays | module-cccshare.c:994-1036 | The smallest such card: one provider named twice, and two listed cards with that provider |
| CardHops.HopsDeduplicates | module-cccshare.c:994-1036 | Under MINIMIZE_HOPS folding leaves exactly one card per class of caid, serial, type, service table and provider set, with the smallest hop offered |
| CardRules.AddedByDefault | module-cccshare.c:1039-1077 | What becomes of a card offered under the default policy |
| CardRules.AddedByHops | module-cccshare.c:994-1036 | What becomes of it under MINIMIZE_HOPS |
| CardRules.AddedByCaid | module-cccshare.c:945-991 | What becomes of it under MINIMIZE_CAID |
| CardRules.ProvidersEqual | module-cccshare.c:844-872 | Providers are equal if there are as many and each of one list is in the other |
| ShareUpdate.CompareAccounts | module-cccshare.c:1105-1151 | Every old card is the partner of at most one new card, which inherits its id, or is left over; every unmatched new card is listed once |
| CardRules.PartnerIsFresh | module-cccshare.c:1085-1122 | Whoever passes an id on is of the same class and, unless remote, in time |
| CardRules.AddedOnlyIfNew | module-cccshare.c:1085-1151 | A card is added only if no card of its class that is in time is left over |
| CardRules.AnnouncedShows | module-cccshare.c:327-333 | What announcing a card does to it and to the counter |
| ShareUpdate.AnnounceKeepsIds | module-cccshare.c:327-333 | Ids stay pairwise distinct and below the counter, and no numbered card changes |
| ShareUpdate.AnnounceNumbers | module-cccshare.c:327-333 | A new card gets an id exactly if some client wants it, and a fresh one |
| ShareUpdate.UpdateConserves | module-cccshare.c:1498-1536 | Old ids less those withdrawn plus those announced are the new ids |
| ShareUpdate.ShareList.UpdateCardList | module-cccshare.c:1498-1536 | The update in place, with the ids it withdraws and announces |
| CardNetwork.ReshareDrops | module-cccshare.c:299-330 | A forwarded remote card goes out with a reshare at least one lower and not negative |
| CardOffers.HandedOut | module-cccshare.c:299-330 | The reshare sent is the smallest of the limits of account, reader and card, with the two exceptions |
| CardOffers.NeverAboveLimits | module-cccshare.c:299-330 | For every card it is within the account's limit, and for a card of a reader within the reader's |
| CardOffers.SentWithinLimits | module-cccshare.c:292-350 | In the network what travels carries that reshare in byte 11, within the limits, and goes no further than the account's hops |
| CardOffers.ForClientUnless | module-cccshare.c:552-628 | A card is for a client unless one of four checks fails |
| CardOffers.IdGiven | module-cccshare.c:332-333 | A card without an id is given the 32-bit counter, which goes round |
| CardOffers.KeptIff | module-cccam.c:2957-3078 | A new card is kept exactly under the reader's conditions, and how |
| CardPaths.RunKeeps | module-cccam.c:2957-3078 | The path invariant holds in every state of every run of the four steps: rebuild and compare the list, number and send a card, receive one, lose some |
| CardPaths.LoopFree | module-cccam.c:2957-3078 | In every state of every run without CAID merging every remote card held has a path without repetitions and without the holder, from its origin to the peer that sent it, and its hop grew by one per node |
| CardPaths.HeldPath | module-cccam.c:2957-3078 | The same of one card, node by node: the nodes of its path differ from each other and from the holder, the first is the origin, the last the peer, and the hop is the origin's plus one per node |
| CardPaths.ReshareBoundsPath | module-cccshare.c:552-559 | With ignore-reshare off everywhere a card first sent with reshare r is at most r + 1 nodes away |
| CardNetwork.MergedCardForgetsPath | module-cccshare.c:983-991 | Why CAID merging is excluded: it clears the path, so the card becomes valid for a node it came through |
| CardRuns.TwoForwarded | module-cccshare.c:327-350 | From any quiet network with three nodes a run of ten steps after which the third holds two different cards of the first that the second forwarded, under different ids |
| CardIds.RunKeeps | module-cccshare.c:1105-1122 | In every run, as long as no counter wraps, the ids of a list are distinct and below the counter, and whatever a node sent agrees in remote id, caid and first node with what it lists under that id |
| CardIds.EveryIdOnce | module-cccam.c:3013-3033 | In every run no node holds two cards of one peer under one id |
| CardIds.WithdrawalHits | module-cccam.c:2599-2659 | In every run, as long as no counter wraps, withdrawing a listed card by its id takes nothing from a holder or exactly one card, which agrees with the one withdrawn in remote id, caid and first node |
| CardLoop.CardComesBack | module-cccshare.c:945-991 | From any quiet network, between any two nodes that merge by CAID, a run in which a card comes back to the node it started from |
| CardLoop.LoopFreeIff | module-cccshare.c:945-1077 | All runs of nodes with one policy are free of loops exactly if the policy is not MINIMIZE_CAID |
| CardExchange.PatchReshare | module-cccshare.c:335-339 | Patching byte 11 of the written card changes the reshare and nothing else |
| CardExchange.SendCardToClient | module-cccshare.c:292-350 | Sends exactly if the card is valid for the client and reshare is left; then a card without an id has the next one, and what is sent is its encoding with the new reshare |
| CardExchange.CardReader.NewCard | module-cccam.c:2957-3078 | The new-card message: what is dropped, and what is kept and how |
| GboxCipher.StepInverse | module-gbox-helper.c:106-150 | One mixing step with its key rotation is undone by the inverse step, in both directions |
| GboxCipher.Peel | module-gbox-helper.c:106-208 | The last n of 32 steps are undone by n inverse steps |
| GboxCipher.FullRotation | module-gbox-helper.c:106-126 | 32 one-bit rotations give the four-byte key back |
| GboxCipher.RoutineInverse | module-gbox-helper.c:106-208 | Each inner routine undoes its partner and gives the key back |
| GboxCipher.ChainInverse | module-gbox-helper.c:152-168 | The chaining passes over the buffer undo each other |
| GboxCipher.BufferInverse | module-gbox-helper.c:210-224 | gbox_decrypt undoes gbox_encrypt and conversely, for every length of at least 9 and every 32-bit key |
| GboxCipher.OtherKeyOtherBytes | module-gbox-helper.c:64-71 | The key bytes are the 32 bits of the key with the high byte first, so that two keys have the same bytes only if they are equal |
| GboxCipher.KnownEight | module-gbox-helper.c:106-126 | A step of gbox_encrypt8 in numbers, with the key rotation |
| GboxCipher.KnownSixth | module-gbox-helper.c:106-126 | A step at the place below |
| GboxCipher.KnownA | module-gbox-helper.c:170-188 | A step of gbox_encryptA in numbers, with a zero key byte |
| GboxCipher.KnownAKey | module-gbox-helper.c:170-188 | And one with a zero neighbour |
| GboxCipher.RoundsFollow | module-gbox-helper.c:106-208 | The first step works from the last byte down; eight are a round, and rounds follow one another |
| GboxCipher.WherePartsGo | module-gbox-helper.c:152-216 | In messages of at least 17 bytes, what becomes of every byte |
| GboxCipher.Encrypt8InPlace | module-gbox-helper.c:106-126 | The two nested loops make the 32 steps of the specification |
| GboxCipher.Decrypt8InPlace | module-gbox-helper.c:128-150 | The two nested loops make the 32 inverse steps |
| GboxCipher.GboxEncrypt | module-gbox-helper.c:210-216 | The whole routine in place |
| GboxCipher.GboxDecrypt | module-gbox-helper.c:218-224 | The whole routine in place |
| CachePush.HashSwapTwice | module-camd35-cacheex.c:23-26 | Swapping the bytes of the CSP hash twice gives it back |
| CachePush.CycleBackIff | module-camd35-cacheex.c:1171-1176 | Cycle time and half come back from their one byte exactly if the cycle time is below 128 |
| CachePush.AnnouncedCycleComesBack | module-cw-cycle-check.c:357-376 | In every run in order of time, whatever cycle time and half the checker announces come back from a push |
| CachePush.RoundTrip | module-camd35-cacheex.c:1235-1474 | push_in reads back what push_out wrote: ids, digest, hash, word, flag, cycle, and the node list with the sender first |
| PushLayout.HeadAt | module-camd35-cacheex.c:1134-1233 | Where command, length, code and identifiers stand in the message of camd35 |
| PushLayout.TailAt | module-camd35-cacheex.c:1134-1233 | Where digest, hash, word, nodes and flag stand |
| PushLayout.ReadsIff | module-camd35-cacheex.c:1235-1474 | Which messages are read |
| CachePush.LgLimit | module-cacheex.c:506-547 | The limit for locally generated words is never the smaller one, and writing the clamped value back changes no limit |
| CachePush.PushOkIsLimit | module-camd35-cacheex.c:1069-1132 | The check passes exactly if the list is shorter than the limit for its kind and the known peer is not in it |
| PushLayout.LimitsAre | module-cacheex.c:495-547 | The two limits from the four numbers that set them |
| PushLayout.WrittenBack | module-cacheex.c:506-547 | Where the limit for local words is written back |
| PushLayout.ReceivedShows | module-camd35-cacheex.c:1235-1474 | What is refused, what is kept, and which peer id is stored |
| CccamPush.CcRoundTrip | module-cccam-cacheex.c:1258-1530 | The CCcam message is read back to the same request as the camd35 message |
| PushLayout.CcHeadAt | module-cccam-cacheex.c:1116-1256 | Where the identifiers stand in the message of CCcam |
| PushLayout.CcReadsIff | module-cccam-cacheex.c:1258-1530 | Which of these are read |
| PushMessage.PushOut | module-camd35-cacheex.c:1134-1233 | The buffer filled behind a moving offset is the encoding; other return codes send nothing |
| PushMessage.Client.GetMaxhopLg | module-cacheex.c:506-547 | The limit, and what is written back to the reader or the account |
| PushMessage.Client.PushCheck | module-camd35-cacheex.c:1069-1132 | The check with its scan of the node list |
| PushMessage.Client.ReceiveRemoteId | module-camd35-cacheex.c:1542-1548 | A keep-alive message sets the stored peer id |
| PushMessage.Client.PushIn | module-camd35-cacheex.c:1235-1474 | What is read, refused or ignored, and the peer id stored |
| PushNetwork.SendIsNew | ncam-cache.c:177-215 | No push is repeated: neither it nor anything sent on from it was sent before |
| PushNetwork.StepKeeps | module-camd35-cacheex.c:1069-1132 | Every step keeps the path invariant and the no-repetition invariant |
| PushNetwork.LoopFree | module-camd35-cacheex.c:1069-1132 | In every run a pushed request held at a node has a node list without repetitions that starts with its sender, does not contain the node, is within the limits at both ends, and still carries what was injected |
| PushNetwork.FinitelyManyPushes | module-camd35-cacheex.c:1069-1132 | Each injected word is pushed at most as often as there are repetition-free sequences of nodes |
| PushNetwork.WordArrives | module-camd35-cacheex.c:1201-1217 | Between any two nodes without limits there is a run in which an injected word is pushed and kept, with the sender as its list |
| CacheFilter.ColumnsBackIff | module-camd35-cacheex.c:998-1067 | A table sent in columns arrives as it was exactly if it fits the slots and every caid is positive |
| CacheFilter.ColumnsKeepMeaning | module-camd35-cacheex.c:916-993 | Then every request is decided the same on both sides, with 15 slots (camd35) or 30 (CCcam) |
| CacheFilter.ShiftedArrives | module-camd35-cacheex.c:998-1067 | The table that arrives when the first entry has no caid, as the configuration allows: the first caid is gone, the other columns are one place off |
| CacheFilter.LoneEntryOpens | module-camd35-cacheex.c:998-1067 | A single entry without caid lets nothing through before and everything after it was sent |
| CacheFilter.ShiftKeepsMeaningIff | module-camd35-cacheex.c:998-1067 | If entries in different places never match one request, such a table keeps its meaning exactly if it has more than one entry and each entry lets the same through under mask, provider and service of the one before it |
| CacheFilter.TwoAreApart | module-camd35-cacheex.c:998-1067 | For a table of two entries ShiftKeepsMeaningIff always applies: entries in different places never meet |
| CacheFilter.DroppedCaidShifts | module-camd35-cacheex.c:998-1067 | A configurable table and a request that passes before and not after it was sent |
| CacheFilter.LongTableIff | module-camd35-cacheex.c:916-993 | A table with more entries than slots is cut; if no request is matched twice, the meaning is kept exactly if the entries cut off let nothing through |
| CacheFilter.AlikeIff | module-cacheex.c:1242-1265 | Two entries of one caid let the same requests through exactly if both let none through or provider and service are equal and the masks let the same caids through |
| FilterLayout.CaidLets | module-cacheex.c:1242-1265 | Which caids an entry lets through |
| FilterLayout.FieldsLet | module-cacheex.c:1242-1265 | How provider and service count |
| FilterLayout.PassesAnyway | module-cacheex.c:1242-1265 | What passes without an entry, and that an entry without caid lets nothing through |
| FilterLayout.KnownCaids | module-cacheex.c:1242-1265 | Known caids and masks |
| FilterLayout.ColumnBytes | module-camd35-cacheex.c:916-993 | Where every field stands in the columns |
| FilterLayout.CompactBytes | module-camd35-cacheex.c:519-563 | Where every entry stands in the compact form |
| FilterLayout.EntryBytes | module-camd35-cacheex.c:538-561 | Where every field stands in an entry, with and without caid |
| FilterLayout.EntryRead | module-camd35-cacheex.c:157-210 | What nine bytes are read as |
| FilterLayout.TakenIff | module-camd35-cacheex.c:157-210 | Of the entries read exactly those with a positive caid are taken |
| CacheFilter.CompactBack | module-camd35-cacheex.c:157-210 | The table that arrives in the compact form |
| CacheFilter.ArrivedMatches | module-cacheex.c:1242-1265 | A mask 0xFFFF that arrives as no mask decides the same |
| CacheFilter.CompactKeepsMeaning | module-camd35-cacheex.c:519-563 | Every request is decided the same on the sent and the received table |
| CacheFilter.CompactKeepsMeaningIff | module-camd35-cacheex.c:157-210 | For a table whose entries fit the fields and never match one request together, the meaning is kept exactly if no caid, provider or service is all ones |
| CacheFilterTable.SendColumns | module-camd35-cacheex.c:916-993 | The four column loops fill the buffer with the encoding |
| CacheFilterTable.SendCompact | module-camd35-cacheex.c:390-750 | What becomes of a table of any length in both builds: with the large buffer sent up to 110 entries, refused from 112, and for 111 the code leaves its payload buffer; with the small one sent up to 63 and refused from 64 |
| CacheFilterTable.Table.Check | module-cacheex.c:1242-1265 | The loop with early return decides as the table means |
| CacheFilterTable.Table.ReceiveColumns | module-camd35-cacheex.c:998-1067 | The table cleared and refilled in four loops |
| CacheFilterTable.Table.ReceiveCompact | module-camd35-cacheex.c:157-210 | The table cleared and refilled entry by entry |
| CacheFilterTable.ExchangeColumns | module-cccam-cacheex.c:883-1043 | Sent, received and asked: the receiver decides as the sender's table would |
| CacheFilterTable.ExchangeCompact | module-camd35-cacheex.c:519-563 | The same through the compact form |
| ExtendedEcm.EveryRunUnique | module-cccam.c:569-620 | In every run no two entries have the same send index |
| ExtendedEcm.IndexReusedIff | module-cccam.c:1904-1916 | An index comes round again exactly after multiples of 255 requests |
| ExtendedEcm.IndexGoesRound | module-cccam.c:1904-1916 | The index goes from 1 to 255 and round again |
| ExtendedEcm.ForgottenShows | module-cccam.c:665-694 | Which entries are left when a card is removed or moved |
| ExtendedEcm.ReplyAttributed | module-cccam.c:3568-3581 | After at most 254 further requests a reply with a request's index resolves to that request or to nothing |
| ExtendedEcm.AttributedIff | module-cccam.c:3230-3238 | Replies are attributed rightly after k further requests in every run exactly if k is at most 254 |
| ExtendedEcm.TooManyRequests | module-cccam.c:1918-1936 | A run with 255 or more further requests whose reply resolves to another request |
| ExtendedEcm.Connection.GetExtendedEcmIdx | module-cccam.c:592-620 | The scan finds the first entry with the index |
| ExtendedEcm.Connection.SendEcmIdx | module-cccam.c:1904-1936 | The next index, and the entry overwritten or appended |
| ExtendedEcm.Connection.TakeReply | module-cccam.c:3568-3581 | The entry with the index is removed and returned |
| ExtendedEcm.Connection.FreeByCard | module-cccam.c:665-694 | Entries of a removed card go, those of a moved card stay without it |
| KeyStore.SetKeyKeepsGood | module-emulator-nemu.c:351-583 | A set keeps names apart, and chains between 1 and 256 pairwise different values (one value unless Irdeto) |
| KeyStore.SetKeyKeepsSlots | module-emulator-nemu.c:351-583 | Whatever the name, every slot keeps a chain of 1 to 256 pairwise different values, one value unless Irdeto |
| KeyStore.KeepsUniqueIff | module-emulator-nemu.c:351-583 | Names are kept apart in every container exactly if the name is at most 11 characters long |
| KeyStore.SetKeyRefines | module-emulator-nemu.c:351-583 | A set on the table is a set on the map from name to values: same result, and the new table stands for the new map |
| KeyStore.EveryRun | module-emulator-nemu.c:351-583 | After every sequence of sets the table is good and is the map they describe |
| KeyStore.FindsLastSet | module-emulator-nemu.c:585-676 | A key that is no Irdeto key is found with the value set last, and not found exactly if never set |
| KeyStore.FindsInChain | module-emulator-nemu.c:585-676 | keyRef k reads the k-th value of a chain, and nothing behind its end |
| KeyStore.IrdetoSetFinds | module-emulator-nemu.c:351-583 | An accepted Irdeto key is found at the end of its chain |
| KeyStore.UpdateFinds | module-emulator-nemu.c:678-702 | After an update the new value is what a lookup of its length reads |
| KeyStore.IrdetoUpdateFinds | module-emulator-nemu.c:678-702 | After an Irdeto update the chain ends in the new value, or is unchanged and has one that agrees with it as far as both go |
| KeyStore.MaskedFindIff | module-emulator-nemu.c:618-629 | Under a provider mask keyRef finds something exactly if it is below the number of slots hit and fits the byte that counts |
| KeyStore.FindsNthHit | module-emulator-nemu.c:598-629 | keyRef n finds the slot that is hit after n others |
| KeyStore.ChecksumsAdded | module-emulator-nemu.c:400-420 | A six-byte BISS key keeps its bytes and gets the two sums |
| KeyStore.ExpiredStays | module-emulator-nemu.c:384-397 | A key refused as expired stays refused on every later day |
| KeyRules.Capitals | module-emulator-nemu.c:366 | Names are stored in capitals |
| KeyRules.PreparedElsewhere | module-emulator-nemu.c:366-451 | What a command stores in every container but that of the BISS words |
| KeyRules.PreparedBiss | module-emulator-nemu.c:368-424 | What it stores there, and when it is refused |
| KeyRules.DateOrder | module-emulator-nemu.c:391 | How dates are compared |
| KeyRules.SecondValue | module-emulator-nemu.c:453-547 | A second value replaces the first, but for Irdeto |
| KeyRules.FullChain | module-emulator-nemu.c:514-532 | A chain of 256 values loses its last one |
| KeyRules.NamesKept | module-emulator-nemu.c:351-583 | A new key is appended under eleven characters of its name |
| KeyRules.HitsIff | module-emulator-nemu.c:598-617 | What a query hits |
| KeyRules.MaskedBits | module-emulator-nemu.c:598-606 | A masked provider loses exactly the bits of the mask |
| KeyRules.PlaceCounts | module-emulator-nemu.c:585-676 | How the place is counted with and without a mask |
| KeyRules.UpdateUnlessThere | module-emulator-nemu.c:678-702 | When an update does nothing |
| KeyRules.Fitted | module-emulator-nemu.c:640-670 | A value is cut or filled up |
| KeyContainer.Container.Grow | module-emulator-nemu.c:535-558 | Room for one more key, first 64 and then 16 at a time, with the keys kept |
| KeyContainer.Container.StoreKey | module-emulator-nemu.c:435-582 | The search, overwrite, chaining and appending in the array; the count never exceeds the room |
| KeyContainer.Container.SetEmuKey | module-emulator-nemu.c:351-583 | The preparations and the store |
| KeyContainer.Container.FindEmuKey | module-emulator-nemu.c:585-676 | The loop over keys and chain, with and without a provider mask |
| KeyContainer.Container.UpdateEmuKey | module-emulator-nemu.c:678-702 | Asking for value after value ends, and then stores or not |
| KeyContainer.Container.DeleteKeys | module-emulator-nemu.c:704-741 | The container is empty again |
| Bytes.FromBe4 | ncam-string.c:396-419 | A 32-bit number written big-endian is read back |
| Bytes.HighByteFirst | ncam-string.c:396-419 | The high byte stands first |
| Bytes.XorBits | module-cccam.c:98-99 | The exclusive or has the bits in which two numbers differ |
| Bytes.AndBits | module-cacheex.c:1252 | The bitwise and has the bits of both |

## Left out

- Sockets, threads, locks, timeouts, logging, configuration files and the web interface.
- The additional crypto step of CCcam's non-extended mode: the server feeds the scrambled word into its block
  (module-cccam.c:4064, 4087) and the reader the unscrambled one (module-cccam.c:3591, 3600), so the blocks
  part there. Lockstep is for extended mode.
- The AES, RC6 and IDEA modes of `cc_crypt_cmd0c`, the SHA-1 function itself, and the checksum test on the seed.
- CccamLogin.LoginSucceeds: does not cover a right password that comes after a failed account of the same
  name, because the code then accepts only under the condition of AccountAcceptedIff.
- CccamLogin.SecondAccountAcceptedIff: covers passwords of one length; for another length AccountAcceptedIff has
  the condition on what the trials leave.
- CccamSession.Step: does not model a connection that breaks in the middle of a frame; MsgRecv covers the short
  read itself. One buffer and limit stand for all receives of a session.
- CwCycleList.AnswerKeepsUnique: does not hold for mixed lengths; UniqueIffNotMixed has the exact condition.
- CwCycle.JudgeKeepsCycle: does not cover times that run back; AnnouncesOwn says what is announced then.
- The counters, log lines and per-reader settings around `checkcwcycle`.
- Merging of service lists (`merge_sids`) and the copying of good and blocked services into a reader's card:
  the comparison of services is a wildcard match that is not transitive.
- CardNetwork.SendCard: does not model stealth mode, in which the own node is not appended.
- CardExchange.SendCardToClient: the group, ident, caid and service checks are one Boolean; they look neither at
  path, hop nor reshare.
- CardExchange.CardReader.NewCard: the caid and ident filters are one Boolean.
- CardPaths.LoopFree: does not cover MINIMIZE_CAID, under which it fails (CardLoop.LoopFreeIff).
- CardHops.HopsDeduplicates: does not cover provider lists with repetitions, for which it fails
  (OfferedTwiceIff, RepetitionsBreakSymmetry).
- CardMessage.WriteCard: does not model cards longer than the buffer; ForwardedSize and ForwardedCardTooLong say
  which received cards are.
- ShareUpdate.ShareList: does not keep the cards in 32 lists by caid, because cards of different lists are
  never the same card; the id counter does not wrap at 32 bits, as it does in CardNetwork and CardExchange.
- CardIds.WithdrawalHits: does not cover runs of 2^32 - 100 steps and more, in which the 32-bit counter may wrap
  and give an id a second time.
- CardNetwork.RebuildShares: does not keep the cards in 32 lists by caid; cards of different lists never meet in a
  comparison, but the order of the whole can differ.
- GboxCipher.BufferInverse: does not cover buffers shorter than nine bytes, for which the code computes a
  negative offset. `gbox_compress` and the checksums are not modelled.
- PushMessage.Client.PushIn: does not model messages shorter than their own count says, nor the incoming
  filters, which only drop requests; PushNetwork.ReceiveStep allows every such drop.
- PushMessage.Client.PushCheck: does not model a connection that is down, which suppresses the push.
- PushNetwork.SendStep: does not model the group, ident and service checks of `cacheex_cache_push`, which only
  suppress pushes, nor CSP clients.
- CacheFilter.CompactKeepsMeaningIff: does not cover tables in which one request is matched twice, so that one
  entry can take another's place; CompactBack has the table that arrives for these too.
- CacheFilter.ShiftKeepsMeaningIff: the same, with ShiftedArrives.
- CacheFilter.LongTableIff: the same, with ColumnsBack.
- CacheFilterTable.SendColumns: does not model the 20-byte header of the camd35 message, which is constant, nor
  the choice between the reader's, the account's and the global table.
- The other feature messages (localgenerated, no-push-after, maxhop, version): a flag or a short list each.
- ExtendedEcm: the server's side, which finds its entry by the request number, and times and ratings of cards.
- KeyContainer.Container.UpdateEmuKey: does not model 'F' keys, for which the code passes no reader although it
  needs one.
- KeyStore.FindsLastSet: does not cover names in lower case, which a set turns to upper case and a lookup does
  not; nor Irdeto providers below 0xFFFF, which a set shifts and a lookup does not.
- The choice of the container by identifier, and writing keys to a file.
- The device back ends, the emulators of single systems, and the hit cache.
