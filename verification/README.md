# Verified model of the Bitcoin wallets

This project models, in Dafny, the parts of the repository on which money depends, and proves
properties of them for all inputs, all runs and all reachable states.

- **The two payment protocols.** Every `with locked_*` section of the single-key wallet
  (`SingleKeyProtocol`) and of the HD wallet (`HdProtocol`) is one atomic step on the wallet and cache
  files. Between steps any other call may happen, and a process may die between two saves. `*Safety`
  holds the invariants and the theorems over whole runs, `SingleKeyPosts`, `SingleKeyLatePosts` and
  `SingleKeyWitness` what holds of the POSTs themselves; `*Store` are the sections as code that
  updates its fields, proved to do what the steps say; `*Steps` describe each section over the fields alone.
- **Coin selection and fees.** `Coins`, `CoinSelection` and `SingleKeySelection` specify the two
  selectors, `CoinSelector` holds the loops. `FeeEstimate` connects the estimate with the
  serializer, `FeeCorrection` and `SingleKeyFeeCorrection` with the loops after signing. `Funding`
  connects the selectors with the reserving sections. `SingleKeyChoice` says exactly what the single-key
  selector takes.
- **Codec.** `WireFormat` states the layout of BIP 144 position by position, `CodecErrors` what is refused;
  `Transactions` prints, `Codec` and `SingleKeyCodec` parse (BIP 144, "Serialization"),
  `Templates` treats transactions without inputs; `Reader`, `RawReader` and `Printer` are the loops.
- **Signing.** `Sighash` (BIP 143, "Specification", and the legacy digest), `Signing` and
  `DigestFormat` with the digest strings position by position, `SigningExact` with who is signed and verified,
  `SingleKeySigning` with their loops in `Signer` and `SingleKeySigner`, `Scripts` for data pushes.
- **Enumerations.** `Discovery` (BIP 44, "Address gap limit"), `AddressBook`, `Pagination`, `Base58`
  with WIF, `Accounting`, `MessageVectors`.

How to read the statements:

- A fee rate is an exact positive fraction; `Decimal` rounding to 28 digits is not modelled.
- Hashes and ECDSA are function parameters. Signing needs only that a signature verifies under its
  key, has at most 72 bytes, and that keys and hashes have their lengths (`Signing.Sound`). Digest
  commitments name the byte strings that would have to collide instead of assuming that a hash is
  injective.
- Random identifiers (operation, draft and wallet ids) are fresh. A transaction id fixes the inputs
  it spends (`SingleKeyProtocol.Chain`), because it hashes them.
- `SingleKeySafety.PostsAreSafe` places a clearing sync between the *persisted intents* of two
  conflicting broadcasts. Between the POSTs themselves the claim is false as it stands: a POST happens
  outside the lock and can be delayed past a clearing (`SingleKeyWitness`). `SingleKeyPosts` proves it
  for POSTs that are *prompt*, made before a sync cleared the input of their intent, and that a POST is
  prompt exactly when the cache still holds its intent when it is made. The converse goes this far: a
  late POST that nothing conflicts with is harmless, so promptness of both is not necessary for every
  single pair; but neither of the two provisos can be dropped, and `SingleKeyLatePosts.OvertakenExactly`
  shows that from every reachable state a late POST can be overtaken by a conflicting prompt one, and a
  prompt POST cannot.
- Identical bytes for one transaction id hold between clearings only. The comparison with the stored
  bytes happens while the input is pending-spent; after a sync cleared it and a stale one offered it
  again, a second signature of the same transaction passes (`SingleKeyWitness`).
- A zero-input template with one output can be misread as SegWit, but only when the low byte of its
  value is not zero and its script has at least 36 bytes; `Templates` gives the exact condition, a test
  on the template's own fields that rules it out, and a family of smallest examples.
- History pagination stops when the first page holds no confirmed record, although the documentation
  string promises the complete history; `Pagination.HistoryCompleteExactly` is the exact condition and
  `Pagination.HistoryCutShort` a backend whose history is cut short.
- HD protocol steps take documents the workflow itself produced; single-key broadcast takes any
  document that passes its validation. The HD workflow always works on the one cache file of the
  wallet file it uses. `get_receive_address` is treated without another process issuing in between.
- One sync is one consistent snapshot wherever coins and history are compared.

## Model

| member | source | states |
|---|---|---|
| SingleKeySafety.PostsAreSafe | single_key_wallet/transaction.py:255-286 | Over every interleaving and crash, whatever is POSTed was persisted first, and two POSTs that share an input but are of different transactions, or of one with different bytes, have a sync that cleared that input between their persisted intents |
| SingleKeySafety.PostsOfOneTransaction | single_key_wallet/transaction.py:255-286 | Two POSTs of one transaction id carry identical bytes unless every input of it was cleared by a sync between the two intents |
| SingleKeyPosts.PromptPostsAreOrdered | single_key_wallet/transaction.py:255-286 | Over every run, of two POSTs that share an input and differ in transaction or bytes, each made before a sync cleared that input of its intent, the later one follows a sync that cleared the input after the earlier one |
| SingleKeyPosts.PromptExactly | single_key_wallet/transaction.py:255-286 | A POST comes before every clearing of its intent on an input if and only if, when it is made, the cache still holds these bytes as pending-spent on that input: a test the caller could make |
| SingleKeyPosts.RunKeepsLive | single_key_wallet/transaction.py:255-285 | In every reachable state whatever a cache entry holds as pending-spent was persisted as an intent that no sync has cleared since, and its stored document is one that may be POSTed |
| SingleKeyLatePosts.OvertakenExactly | single_key_wallet/transaction.py:255-286 | In every reachable state the next POST of a persisted document can be followed, with no clearing of one of its inputs between, by a conflicting POST that is itself prompt, if and only if the cache no longer holds the document on that input; assumed only that another transaction spends just that input |
| SingleKeyWitness.LaterPostUnordered | single_key_wallet/transaction.py:286 | Neither proviso can be dropped: for every second transaction or byte string on one coin there is a run whose last POST is late and follows a prompt conflicting POST with no clearing between |
| SingleKeyWitness.EarlierPostUnordered | single_key_wallet/transaction.py:286 | And one in which a late POST is followed by a prompt conflicting one with no clearing between |
| SingleKeyWitness.OneIdTwoByteStrings | single_key_wallet/transaction.py:269-275 | The proviso of PostsOfOneTransaction is needed: a concrete run in which one id is POSTed with two byte strings, because the bytes are compared only while the input is still pending-spent |
| SingleKeySafety.RunKeepsInv | single_key_wallet/transaction.py:81-106 | Every reachable state keeps: each outpoint blocked by at most one wallet, each pending spend backed by its stored transaction, orphaned cache entries idle, every persisted intent still in force or cleared |
| SingleKeySafety.StepKeepsInv | single_key_wallet/transaction.py:255-297 | Each lock section, crashes included, preserves that invariant |
| SingleKeySafety.IntentBlocksInputs | single_key_wallet/wallet_cache.py:29-35 | In every reachable state an input of a persisted intent is unavailable to every wallet until some sync clears it |
| SingleKeySafety.AfterIntent | single_key_wallet/transaction.py:35-47 | After a persisted intent the same bytes may be retried, other bytes on its inputs are refused, and the draft can no longer be cancelled |
| SingleKeySafety.CancelUndoesReserve | single_key_wallet/transaction.py:23-47 | Cancelling or releasing a draft that was only reserved restores both files exactly |
| SingleKeySafety.RefusalExactly | single_key_wallet/transaction.py:260-275 | The input checks before a broadcast accept exactly when every input is still cached as signed, reserved by this operation, and free of other attempts |
| SingleKeySafety.RemoveKeepsFiles | single_key_wallet/service.py:130-147 | Removing a wallet, even if it crashes between its two writes, keeps every outpoint blocked at most once and leaves only idle orphans |
| SingleKeySteps.IntendExactly | single_key_wallet/transaction.py:251-285 | An intent is persisted, and so the document POSTed, exactly when every input is still cached as the confirmed coin it was signed for, equal in value, address, type and script, is reserved by this operation, and has seen no attempt but one of these bytes whose outcome is unknown; the first input that fails decides the error; every field of the new entry is given |
| SingleKeySteps.ReserveExactly | single_key_wallet/transaction.py:81-106 | Reserving goes through exactly when every coin asked for is cached and taken by no wallet, and adds exactly these reservations |
| SingleKeySteps.CancelExactly | single_key_wallet/transaction.py:35-47 | A draft without reservations and one offered for broadcast are refused, each with its own error; any other gives back exactly its reservations |
| SingleKeySteps.SettleExactly | single_key_wallet/transaction.py:289-295 | An answered broadcast is marked so and gives back exactly its reservations; no other field of any entry changes |
| SingleKeySteps.MergeExactly | single_key_wallet/wallet_sync.py:109-147 | A sync goes through exactly for a wallet that kept its id; it leaves the fetched coins, the observed statuses, the reservations of unresolved operations, and the spends whose coin is still offered or whose transaction is unseen |
| SingleKeySteps.RemoveExactly | single_key_wallet/service.py:130-147 | A wallet is removed exactly when nothing of it is reserved or pending-spent, and unless the removal is torn its cache entry with it |
| SingleKeySteps.TraceMeans | single_key_wallet/transaction.py:276-286 | The trace that the theorems speak of tells the truth: an intent is recorded exactly when one is persisted, a POST when one is made, and with a sync exactly the outpoints that stopped being pending-spent |
| SingleKeySteps.EnabledExactly | single_key_wallet/transaction.py:244-289 | What may happen when: fresh identifiers, a broadcast only of a document of a live wallet that spends exactly the inputs of its transaction, a POST only of what was persisted, however late, a settling only of what was POSTed, and everything else at any time |
| SingleKeySteps.RunsExactly | single_key_wallet/transaction.py:81-106 | Runs begin with no files and go on by whatever may happen next, so the theorems over runs speak of every interleaving |
| SingleKeyStore.Store.ReserveInputs | single_key_wallet/transaction.py:81-106 | Marks exactly the selected outpoints with the operation, or refuses with nothing written |
| SingleKeyStore.Store.CancelDraft | single_key_wallet/transaction.py:35-47 | Drops the reservations of a draft never broadcast; refuses a missing or attempted one |
| SingleKeyStore.Store.PersistIntent | single_key_wallet/transaction.py:255-285 | Checks the inputs in order, then marks, blocks and stores the intent in one write |
| SingleKeyStore.Store.MergeSnapshot | single_key_wallet/wallet_sync.py:122-147 | Merges the newest reservations and pending spends with the fetched coins and history, one transaction at a time |
| SingleKeyStore.Store.RemoveWallet | single_key_wallet/service.py:130-147 | Refuses while inputs are blocked; otherwise deletes wallet then cache entry, with the crash between |
| SingleKeyStore.FoldHistory | single_key_wallet/wallet_sync.py:133-141 | The in-place loop over the fetched history yields the order-independent pending statuses and reservations |
| SingleKeyStore.MarkAttempted | single_key_wallet/transaction.py:277-280 | The marking loop flags every input attempted and pending-spent, and no other |
| HdSafety.BroadcastChangeIsUnique | tx/workflow.py:215-258 | Over every interleaving of lock sections, two distinct drafts that pass the pre-broadcast reservation check never pay change to the same index of the same account, even when one is cancelled midway through the signing of the other |
| HdSafety.BroadcastChangeIsNotHandedOut | wallet/wallet.py:864-916 | Nor does a draft that passes the check carry an index that a manual change-address request handed out at any time |
| HdSafety.BroadcastChangeIsIssued | tx/workflow.py:821-851 | The change of a draft that passed the check has been issued, so the following test of its address succeeds |
| HdSafety.OneActiveDraft | tx/workflow.py:108-127 | In every reachable state all reserved outpoints and the reserved change name one draft, which has reserved inputs; the reserved index is the next one, or one below it after a crash between issue and save |
| HdSafety.RunKeepsInv | tx/workflow.py:294-329 | The whole draft invariant holds after every lock section and at every crash point |
| HdSafety.StepKeepsInv | tx/workflow.py:731-818 | Each lock section preserves the draft invariant |
| HdSafety.RunMonotone | wallet/wallet.py:735-756 | The next change index never decreases, and passed checks, hand-outs and finished documents stay |
| HdSafety.SigningFinishes | tx/workflow.py:741-809 | A draft that passes the first check of signing can finish signing in any later state of the run, whatever ran between the two lock sections, unless it was cancelled or its broadcast recorded |
| HdSafety.ResigningCompletes | tx/workflow.py:759-809 | After a crash between issuing the address and saving the cache, signing again at once passes its check and leaves exactly what an uninterrupted signing leaves; a further one changes nothing |
| HdSafety.ResigningCompletesLater | tx/workflow.py:741-809 | Signing again at any later time before the draft ends uses up no further index, clears the reservation, and is idempotent; it passes the first check exactly when every input is still cached |
| HdSafety.CancelMakesRoom | tx/workflow.py:130-149 | Cancelling the active draft always leaves no reservation and no reserved change behind |
| HdSafety.ReservationSurvives | wallet/wallet_sync.py:335-343 | Over every stretch of a run only its own cancellation or recorded broadcast takes a reservation away; no racing sync does |
| HdSafety.ChangeReservationSurvives | wallet/wallet_sync.py:337-343 | Over every stretch of a run only its own cancellation or finished signing takes a change reservation away |
| HdSafety.RecordedSpendBlocks | wallet/wallet_sync.py:344-387 | A coin spent by a recorded broadcast is refused to every later draft until some sync reports a recorded spender of it confirmed |
| HdSteps.FundExactly | tx/workflow.py:294-329 | Funding goes through exactly when no draft is active and every coin chosen is cached, of the account type and not pending-spent; it reserves exactly these for the draft |
| HdSteps.SyncExactly | wallet/wallet_sync.py:324-400 | A sync leaves exactly the fetched coins, every reservation, and of the pending transactions and spends those the history does not confirm |
| HdSteps.FundAfterSync | wallet/wallet_sync.py:324-400 | Right after a sync exactly the fetched coins of the account that are not still pending-spent can be funded |
| HdSteps.FundedCoinsWereFetched | wallet/wallet_sync.py:324-400 | Over every run a draft is funded only with coins of its account that the last sync fetched |
| HdSteps.ReserveChangeExactly | tx/workflow.py:215-258 | A change index is reserved exactly for a draft with reserved inputs while none is: the next one of its account |
| HdSteps.FinishSigningExactly | tx/workflow.py:759-809 | Finishing issues exactly the reserved index of this very document, or accepts one issued before when nothing is reserved; both files are given after it, crash included |
| HdSteps.MaySignExactly | tx/workflow.py:537-627 | Signing may begin exactly when every input is cached and reserved by the draft and its change is the reserved one or, if none is, an issued one |
| HdSteps.RecordExactly | tx/workflow.py:854-917 | Recording makes exactly the inputs of the document spends of the transaction and drops exactly the reservations of its draft |
| HdSteps.NewAddressesExactly | wallet/wallet.py:864-916 | A new address advances the counter of its own branch and account by one, a change address only while no draft holds one |
| HdSteps.StepMeans | tx/workflow.py:731-1005 | The drafts, marks and trace that the theorems speak of tell the truth: each is extended exactly when its section goes through |
| HdSteps.CanHappenExactly | tx/workflow.py:731-1005 | What may happen when: a complete document before signing finishes, a finished signing before the check, a passed check before recording, a sync only for accounts with addresses, and everything else at any time |
| HdSteps.RunsExactly | tx/workflow.py:731-1005 | Runs begin with no wallet and no cache entry and go on by whatever may happen next |
| HdStore.Store.FundDraft | tx/workflow.py:294-329 | Reserves exactly the selected coins for a fresh draft when none is active |
| HdStore.Store.ReserveChangeIndex | tx/workflow.py:215-258 | Reserves the next change index for a draft with reserved inputs |
| HdStore.Store.ReleaseDraft | tx/workflow.py:130-159 | Drops exactly the draft reservations and its reserved change |
| HdStore.Store.FinishSigningDraft | tx/workflow.py:759-809 | Issues the reserved index, then clears the reservation; a crash can fall between the two writes |
| HdStore.Store.IssueReserved | wallet/wallet.py:683-757 | Issues exactly the reserved index, idempotently; any later index is refused |
| HdStore.Store.CheckReservations | tx/workflow.py:981-999 | Accepts exactly when every input is reserved by this draft |
| HdStore.Store.RecordBroadcastOf | tx/workflow.py:871-917 | Releases the draft and records its inputs as pending-spent by the transaction |
| HdStore.Store.NewChangeAddress | wallet/wallet.py:864-916 | Hands out the next change index unless a draft holds one |
| HdStore.Store.MergeSync | wallet/wallet_sync.py:332-400 | Takes the fetched coins, keeps every reservation, and drops confirmed pending transactions with their spends |
| HdBook.IssueChangeRefines | wallet/wallet.py:683-757 | On a contiguous address book issuing an index moves the counters exactly as the workflow model says |
| HdBook.ManualChangeRefines | wallet/wallet.py:864-989 | A manually issued change address is the derivation at the counter the workflow model hands out |
| HdBook.IssuedTestRefines | tx/workflow.py:821-851 | Looking a change address up in the book is the same test as comparing its index with the counter |
| CoinSelection.SelectIsCompleteAndOptimal | tx/coin_selection.py:152-237 | Without a fee limit, selection succeeds if and only if some nonempty set of eligible unreserved coins containing the mandatory ones covers the target and the fee of its size; it uses the fewest inputs of any such set |
| CoinSelection.SelectConservesValue | tx/coin_selection.py:185-216 | Inputs equal destination plus change plus fee; change is zero or at least dust; absorbed excess is below dust plus the cost of the change output; no reserved, excluded or unqualified coin is used |
| CoinSelection.FeeLimitOnlyRefuses | tx/coin_selection.py:228-231 | The fee limit never changes a selection, it only refuses one whose fee exceeds it |
| CoinSelection.SelectIgnoresCacheOrder | tx/coin_selection.py:152-180 | The outcome does not depend on the order in which the cache lists distinct coins |
| CoinSelection.EligibleIsLast | tx/coin_selection.py:152-160 | A coin is eligible exactly when it qualifies and no later qualifying entry has its outpoint |
| CoinSelection.EligibleExactly | tx/coin_selection.py:152-160 | A coin is eligible exactly when it is of the type, confirmed, deep enough, not excluded, and no later such entry has its outpoint |
| CoinSelection.RefusalExactly | tx/coin_selection.py:118-165 | A request is let through exactly when it has outputs, all worth something, asks for confirmed coins of a spendable type from well-formed entries, and every outpoint it asks for is eligible and neither excluded nor reserved |
| CoinSelection.RefusalInOrder | tx/coin_selection.py:118-165 | The first failing check decides the error, and of the outpoints asked for the first that cannot be had |
| CoinSelection.MandatoryInOrder | tx/coin_selection.py:167-172 | The coins asked for come in the order in which they were first asked for |
| CoinSelection.EvaluateMeans | tx/coin_selection.py:185-216 | A plan exists exactly when the inputs cover target and fee, and it accounts for every satoshi |
| CoinSelection.GrowIsFirstEnough | tx/coin_selection.py:213-216 | The loop stops at the first prefix of the trial order that pays for itself, or shows that none does |
| CoinSelection.SelectAllTakesAll | tx/coin_selection.py:240-317 | Sending everything takes every spendable coin, pays exactly the fee of its size, and never creates dust |
| CoinSelection.SelectAllExactly | tx/coin_selection.py:240-317 | Sending everything succeeds exactly for a P2PKH or P2WPKH destination left at least its dust limit after the fee, within the fee limit, from well-formed coins |
| CoinSelection.SelectAllRefusals | tx/coin_selection.py:240-317 | The error of a refused send-everything is that of the first failing check |
| Coins.PrefixIsBest | tx/coin_selection.py:173-180 | Exchange argument: no choice of as many coins that contains the mandatory ones is worth more than the prefix of the sorted candidates |
| Coins.OrderIsUnique | tx/coin_selection.py:179 | The sort key orders distinct coins in exactly one way |
| Coins.SortedByKeys | tx/coin_selection.py:179 | Sorted coins are in the order of larger value, then the id that is smaller in the first byte that differs, then the smaller output number |
| CoinSelector.SelectCoins | tx/coin_selection.py:118-237 | The selection code, check by check and loop by loop, computes the specified selection |
| CoinSelector.GrowSelection | tx/coin_selection.py:213-216 | The greedy while loop computes the first sufficient selection |
| CoinSelector.CollectEligible | tx/coin_selection.py:152-160 | Filling the dictionary keeps the last qualifying entry of each outpoint |
| CoinSelector.CollectMandatory | tx/coin_selection.py:167-172 | Requested coins are taken once each, in the order asked |
| CoinSelector.CheckWanted | tx/coin_selection.py:161-165 | The first requested outpoint that is reserved or not spendable is reported |
| SingleKeySelection.SelectorsAgree | single_key_wallet/coin_selection.py:68-130 | On the same compressed-P2PKH or P2WPKH coins with one destination, the single-key selector succeeds exactly when the HD one does within the single-key limits, with identical coins, fee, change, size and totals |
| SingleKeySelection.SendAllAgrees | single_key_wallet/coin_selection.py:90-95 | Towards a destination the HD wallet knows, the two send-everything modes succeed together within the single-key limits, with identical results; towards any other the HD one refuses |
| SingleKeySelection.TakeCandidates | single_key_wallet/coin_selection.py:101-116 | The candidate loop with its two sizes per pass computes its specification |
| SingleKeyChoice.SelectAmountExactly | single_key_wallet/coin_selection.py:68-130 | For every key form: an amount is selected exactly when request and amount are in range and above dust and the shortest prefix of the candidates that pays for itself, reached before any pass fails, gives an acceptable result, which is then the one selected |
| SingleKeyChoice.SelectEverythingExactly | single_key_wallet/coin_selection.py:90-130 | Sending everything takes all candidates and succeeds exactly when what the fee of its size leaves is acceptable |
| SingleKeyChoice.TakeExactly | single_key_wallet/coin_selection.py:101-116 | The loop answers with the shortest prefix that pays for itself if all passes before it went through |
| SingleKeyChoice.TryExactly | single_key_wallet/coin_selection.py:101-114 | One pass: change if it is worth its dust limit after the fee of the size with change, else everything over the amount is the fee if it pays for the size without |
| SingleKeyChoice.KeyRefusalExactly | single_key_wallet/coin_selection.py:68-89 | A cache is accepted exactly without malformed coins and repeated outpoints and with a coin to spend, a request with limits in range |
| SingleKeyChoice.SelectAmountInOrder | single_key_wallet/coin_selection.py:68-130 | The error of a refused amount is that of the first failing check, pass or demand on the result |
| SingleKeyChoice.SpendablesExactly | single_key_wallet/coin_selection.py:82-87 | The candidates are exactly the confirmed, deep enough coins of the key form that no wallet blocks |
| SingleKeyChoice.DustTable | single_key_wallet/scripts.py:65-70 | The dust limit of every P2PKH, P2SH, P2WPKH, P2WSH and P2TR script, and of no other |
| Funding.HdSelectionIsReserved | tx/workflow.py:312-329 | A successful HD selection under the cache lock is always reserved, exactly its coins |
| Funding.HdSendAllIsReserved | tx/workflow.py:462-492 | So is a successful send-everything selection |
| Funding.SingleKeySelectionIsReserved | single_key_wallet/transaction.py:97-106 | A successful single-key selection that avoids all blocked coins is always reserved |
| Funding.SingleKeySendAllIsReserved | single_key_wallet/transaction.py:97-106 | So is a successful single-key send-everything selection |
| FeeEstimate.EstimateBoundsSize | tx/coin_selection.py:43-72 | BIP 141: the virtual size of a signed transaction with signature and type of at most 73 bytes never exceeds the estimate, for P2PKH compressed and uncompressed and for P2WPKH |
| FeeEstimate.EstimateIsTight | single_key_wallet/coin_selection.py:30-40 | The estimate is reached when every signature has 73 bytes, so no smaller bound holds |
| FeeEstimate.FeeIsLeast | tx/coin_selection.py:33-36 | The fee is the least whole number of satoshis that pays the rate for the size |
| FeeEstimate.RateLimits | single_key_wallet/coin_selection.py:15-22 | A fee rate is allowed exactly when one virtual byte costs from 1 to 10,000 satoshis, rounded up |
| FeeCorrection.FundedFeeIsFinal | tx/workflow.py:678-692 | A transaction funded by the HD selector leaves the correction loop on the first pass with unchanged outputs, and pays exactly the estimated fee |
| FeeCorrection.FundedAllFeeIsFinal | tx/workflow.py:678-692 | The same of a transaction that sends everything |
| FeeCorrection.EstimateSuffices | tx/workflow.py:678-692 | Any transaction that pays its estimate is signed once and never corrected |
| FeeCorrection.CorrectMeans | tx/workflow.py:678-692 | Whatever the loop returns pays the requested rate, and only the change shrank, staying at or above dust |
| FeeCorrection.AttemptExactly | tx/workflow.py:678-728 | One pass: final if the fee pays for the size, else the change is lowered so that the fee is exactly what the size demands, unless there is none or it would be dust |
| FeeCorrection.TriesExactly | tx/workflow.py:678-728 | The passes follow one another until one is final or fails, and after the last one the rate was not reached |
| SingleKeyFeeCorrection.KeyFundedFeeIsFinal | single_key_wallet/transaction.py:121-140 | What the single-key selector funded is signed in one pass for all three key forms, pays the estimated fee, and stays within the standard weight |
| SingleKeyFeeCorrection.KeyCorrectMeans | single_key_wallet/transaction.py:121-138 | Whatever the loop returns pays the rate within the fee limit, and only the adjustable output paid for it |
| SingleKeyFeeCorrection.KeyAttemptExactly | single_key_wallet/transaction.py:121-138 | One pass of the single-key loop: within the fee limit, final or the one adjustable output lowered so that the fee is exactly what the size demands |
| SingleKeyFeeCorrection.SelectAmountPays | single_key_wallet/coin_selection.py:97-130 | Every single-key selection of an amount pays at least the fee of its estimated size, within weight and fee limits |
| SingleKeyFeeCorrection.SelectEverythingPays | single_key_wallet/coin_selection.py:90-130 | So does every send-everything selection |
| FeeCorrector.CorrectFee | tx/workflow.py:678-692 | The three tries, signing and lowering the change in place, compute the specified correction |
| FeeCorrector.KeyCorrectFee | single_key_wallet/transaction.py:121-138 | The eight tries of the single-key loop compute theirs |
| Codec.ParseOfPrint | tx/codec.py:81-171 | Every well-formed transaction with at least one input parses back to itself |
| Codec.PrintOfParse | tx/codec.py:81-171 | Every accepted byte string serializes again to exactly itself |
| Codec.ParseAsSound | tx/codec.py:130-157 | Each reading, SegWit or legacy, accepts only well-formed transactions printed in that very form |
| WireFormat.PrintIsLaidOut | tx/codec.py:60-102 | A byte string is the serialization if and only if every field stands where BIP 144 puts it: integers least significant byte first, ids backwards, counts in their shortest form, the witness behind marker and flag |
| WireFormat.ParseReadsLayout | tx/codec.py:105-171 | Parsing gives a transaction with inputs if and only if it is well formed and stands so in the string |
| WireFormat.FirstIdOnWire | tx/codec.py:109-112 | In particular the id of the first input is its 32 bytes on the wire in reverse |
| CodecErrors.SerializationWithRest | tx/codec.py:130-157 | A serialization followed by anything is refused as trailing bytes, one that spends an outpoint twice as duplicate inputs, any other is read |
| CodecErrors.MarkerErrors | tx/codec.py:132-141 | After a zero count the flag byte 0 and flag bytes above 1 are refused, each with its own error |
| CodecErrors.LongCountRefused | tx/codec.py:40-57 | A count not written in its shortest form is refused |
| CodecErrors.KeyRefusedEarly | single_key_wallet/codec.py:58-84 | The single-key decoder refuses more than 400,000 bytes unread, fewer than four, and a transaction without inputs, each with its own error |
| CodecErrors.KeyRefusedAtEnd | single_key_wallet/codec.py:96-110 | A transaction read to its end is refused for repeated inputs, then for too much money, then for any other spelling than its own serialization |
| Templates.ParseOfTemplate | tx/codec.py:160-171 | A template without inputs parses back through the fallback when it has other than one output, or one whose value is a multiple of 256 or whose script is too short for the inputs that the low byte of the value would count |
| Templates.ShortTemplateParses | tx/codec.py:160-171 | In particular every one-output template whose script is at most 35 bytes parses back |
| Templates.TemplateMisreadExactly | tx/codec.py:130-171 | A one-output template parses back if and only if the first, SegWit reading of its bytes is refused, which is so if and only if no witnessed transaction prints alike |
| Templates.MisreadTemplate | tx/codec.py:130-171 | The bound is tight: a template with a 36-byte script that parses as a different transaction |
| SingleKeyCodec.DecodersAgree | single_key_wallet/codec.py:58-110 | The single-key decoder accepts exactly what the HD decoder accepts within the single-key limits, and returns the same fields |
| SingleKeyCodec.ParseSingleKeyOfPrint | single_key_wallet/codec.py:37-110 | The single-key decoder inverts its printer on every valid transaction with at least one input up to 400,000 bytes |
| Reader.Deserialize | tx/codec.py:160-171 | The stateful reader, retry included, computes the specified parse |
| Reader.DeserializeAs | tx/codec.py:130-157 | One reading through the reader object computes the specified reading |
| Reader.ByteReader.Read | tx/codec.py:33-38 | Returns the next bytes and advances past them, or fails when too few are left |
| Reader.ByteReader.ReadSize | tx/codec.py:40-57 | Reads a CompactSize, refusing forms longer than needed |
| Reader.ByteReader.ReadInputs | tx/codec.py:109-118 | The input loop reads as many inputs as counted |
| Reader.ByteReader.ReadOutputs | tx/codec.py:121-127 | The output loop reads as many outputs as counted |
| RawReader.Deserialize | single_key_wallet/codec.py:58-110 | The single-key decoder with its shared position computes the specified decoding |
| Printer.SerializeTransaction | tx/codec.py:81-102 | The serializing loops build exactly the specified bytes |
| MessageVectors.DeserializeExactly | sign/message.py:92-112 | A witness vector is accepted exactly when it is the serialization of at most 100 items, and yields those items |
| MessageVectors.DeserializeLoop | sign/message.py:98-112 | The decoding loop computes the specified result |
| CodecErrors.VectorWithRest | sign/message.py:92-112 | A vector followed by anything is refused for the rest, one of more than a hundred items for their number |
| Sighash.Bip143Commits | tx/sighash.py:32-51 | Equal BIP 143 digests mean equal version, outpoints, sequences, outputs, lock time, signed input, spent value and script, unless one of four named pairs of byte strings is a hash collision |
| Sighash.LegacyCommits | tx/sighash.py:54-78 | Equal legacy digests mean equal version, outpoints, sequences, outputs, lock time, signed input and script, unless the preimages collide |
| Sighash.OutputsInjective | tx/codec.py:73-78 | Concatenated outputs without a count are uniquely decodable |
| Sighash.DigestIgnoresUnlocking | tx/sighash.py:20-78 | Both digests are independent of the current script and witness of every input |
| DigestFormat.PreimageIsBip143 | tx/sighash.py:32-51 | What the SegWit digest hashes is exactly the 182 bytes of BIP 143, each field at its position, with the double hashes of all outpoints, sequence numbers and outputs as they are laid out |
| DigestFormat.PreimageIsLegacy | tx/sighash.py:54-78 | What the legacy digest hashes is exactly the transaction with only the signed script kept, as it is laid out, followed by 1, 0, 0, 0 |
| SigningExact.DigestExactly | tx/sighash.py:20-78 | A digest exists exactly for an input that spends a standard output of its kind; the first failing check decides the error |
| SigningExact.SoundIsPossible | tx/signer.py:26-58 | What signing assumes of hashes and signatures can be met, so the signing theorems are not empty |
| Signing.VerificationNeverFails | tx/signer.py:26-58 | The branch "local transaction signature verification failed" is unreachable for any number of inputs |
| Signing.SigningCloses | tx/signer.py:26-58 | After the in-place loop every input verifies, given only consistency of signing and verifying |
| Signing.ResigningStartsAfresh | tx/signer.py:26-51 | Signing again after a change correction is unaffected by stale scripts and witnesses |
| Signing.SignFromMeans | tx/signer.py:26-51 | The loop keeps everything but scripts and witnesses, and leaves each input as it would be signed alone |
| Signing.SignedShape | tx/signer.py:47-51 | Signed inputs have the shape the size estimate counts |
| SigningExact.SignExactly | tx/signer.py:15-72 | A transaction is signed if and only if its prevouts are of one spendable kind, the session holds the key of each in the order of the inputs, and they are worth at least the outputs |
| SigningExact.SignedInputExactly | tx/signer.py:26-51 | Why one input is refused, in the order of the checks |
| SigningExact.SignInOrder | tx/signer.py:15-72 | A refused transaction names the count, the kinds, the first input that cannot be signed, or the value |
| SigningExact.VerifyInputExactly | tx/verifier.py:13-59 | An input verifies if and only if some signature marked SIGHASH_ALL and compressed key in it, of the right hash, verify over its digest |
| Signer.TransactionObject.SignTransaction | tx/signer.py:15-72 | The object holds the signed transaction on success; on any error only scripts and witnesses may have changed |
| Signer.TransactionObject.SignOne | tx/signer.py:26-51 | One input is cleared, signed over the current transaction and filled in; the others stay |
| Signer.TransactionObject.VerifyAllInputs | tx/verifier.py:62-76 | Refuses a wrong number of prevouts, otherwise answers for each input whether it verifies |
| SingleKeySigning.KeySigningCloses | single_key_wallet/signing.py:91-115 | After the single-key loop every input verifies, for all three key forms |
| SingleKeySigning.KeyVerificationNeverFails | single_key_wallet/signing.py:111-112 | Its failure branch is unreachable |
| SingleKeySigning.KeySignSucceeds | single_key_wallet/signing.py:91-113 | A transaction whose prevouts all pay the key, in order, is always signed |
| SingleKeySigning.DigestsAgree | single_key_wallet/signing.py:15-44 | The single-key digest equals the HD digest, or both refuse |
| SingleKeySigning.KeySignedShape | single_key_wallet/signing.py:106-110 | Signed inputs have the shape the size estimate counts |
| SigningExact.KeySignExactly | single_key_wallet/signing.py:91-115 | The single key signs if and only if every prevout pays it, in the order of the inputs and in one key form |
| SigningExact.KeySignedInputInOrder | single_key_wallet/signing.py:94-110 | An input is refused first for an output the key does not own, then for spending another one, and otherwise signed |
| SigningExact.KeyVerifyInputExactly | single_key_wallet/signing.py:59-88 | An input of the single-key wallet verifies if and only if some signature and canonical key of its form in it verify over its digest |
| SigningExact.KeyDigestExactly | single_key_wallet/signing.py:15-44 | The single-key digest is refused for the index, then for another outpoint, then for a script not of the form, and is otherwise that of the HD wallet |
| SingleKeySigner.SignTransaction | single_key_wallet/signing.py:91-115 | The in-place loop computes the specified signing |
| SingleKeySigner.VerifyAllInputs | single_key_wallet/signing.py:59-88 | The loop with its early exits decides whether every input verifies |
| Scripts.ParseOfPushAll | tx/script.py:105-151 | Parsing pushes undoes any sequence of pushes, of every length class |
| Scripts.DirectPushesExactly | single_key_wallet/signing.py:47-56 | The strict parser accepts exactly the shortest-form pushes of 1 to 75 bytes |
| Scripts.PushForms | tx/script.py:105-117 | The four forms of a push with their opcodes and limits |
| Scripts.HeaderForms | tx/script.py:120-151 | The reader accepts each of the four forms with any length, shortest or not, and no other opcode |
| Scripts.PushIsShortest | tx/script.py:105-151 | No script that reads as one item is shorter than the push of that item |
| Scripts.StrictParserAgrees | single_key_wallet/signing.py:47-56 | Whatever the strict parser accepts the other one reads alike |
| Scripts.ParsePushLoop | tx/script.py:120-151 | The offset loop computes the specified parse |
| Scripts.DirectPushLoop | single_key_wallet/signing.py:47-56 | The position loop computes the specified strict parse |
| Base58.DecodeOfEncode | btc/btc_address_gen.py:38-50 | Every byte string is decoded from its Base58 encoding, leading zeros included |
| Base58.EncodeOfDecode | single_key_wallet/wif.py:23-33 | Every string over the alphabet is the encoding of what it decodes to |
| Base58.ToBytesIsNumeral | single_key_wallet/wif.py:32 | The length computed from the bit length is exactly the shortest big-endian form |
| Base58.DecodeOfEncodeCheck | btc/btc_address_gen.py:52-55 | Base58Check decoding undoes encoding exactly for nonempty payloads whose text has at most 120 characters, as those of up to 56 bytes have |
| Base58.EncodeOfDecodeCheck | single_key_wallet/wif.py:23-36 | Whatever the checked decoder accepts is the encoding of its result |
| Base58.WifRoundTrip | single_key_wallet/wif.py:47-64 | A WIF text decodes to a key and flag if and only if it is their encoding for that network, for every valid scalar |
| Base58.AddressRoundTrip | tx/script.py:20-38 | An address decodes to a version and hash if and only if it is their Base58Check encoding |
| Base58Format.EncodeMeans | btc/btc_address_gen.py:38-50 | An encoding is the number of the bytes written in base 58, after one 1 for each leading zero byte |
| Base58Format.AlphabetExactly | btc/btc_address_gen.py:24 | The alphabet is all digits and letters but 0, I, O and l, in ascending order |
| Base58Format.FirstDigitWeighsMost | btc/btc_address_gen.py:38-50 | Numerals are read with the first digit the most significant |
| Base58Format.WifForm | single_key_wallet/wif.py:39-64 | A WIF text is the Base58 of the prefix of its network, the key, the compression mark and the first four bytes of their double hash, for exactly the keys from 1 to the curve order less one |
| Base58Format.CheckedRefusals | single_key_wallet/wif.py:23-36 | A checked text is refused for its length, then for a foreign character, then for its checksum |
| Base58Format.AddressRefusals | tx/script.py:20-38 | An address is refused for its characters, then for its length of 25 bytes, then for its checksum |
| Base58.EncodeLoop | btc/btc_address_gen.py:38-50 | The digit loop and the padding loop compute the encoding |
| Base58.ReadNumber | single_key_wallet/wif.py:26-31 | The accumulating loop computes the number, or stops at the first foreign character |
| Base58.DecodeLoop | tx/script.py:23-31 | The whole decoder computes the specified bytes |
| Pagination.HistoryOfFaithful | network/esplora_backend.py:194-242 | Against a faithful newest-first backend with any nonempty page sizes the result is the mempool followed by the whole history; the only other outcomes are the safety limit, exactly when more than 10,000 requests are needed, and the mempool alone when the first page reaches no confirmed record |
| Pagination.HistoryCompleteExactly | network/esplora_backend.py:194-242 | The result is the whole history exactly when it fits the safety limit and the first page reaches a confirmed record, or there is none |
| Pagination.HistoryCutShort | network/esplora_backend.py:194-242 | A faithful backend on which the history is not complete: the first page holds only a mempool transaction, and the confirmed one is missed |
| Pagination.HistoryCoversEveryPage | network/esplora_backend.py:174-242 | Against any backend a returned history covers every page received: each transaction once, in first-seen order, a confirmed record in place of a mempool one |
| Pagination.HistoryTrusts | network/esplora_backend.py:174-242 | A history is returned only if every record was valid, every one after the first page confirmed, no cursor was asked for twice, and at most 10,000 requests were made |
| Pagination.AddPageExactly | network/esplora_backend.py:197-215 | A page is taken exactly when every record is valid and, after a cursor, confirmed; the first other one decides the error |
| Pagination.WalkRefusals | network/esplora_backend.py:217-242 | One request is refused for a repeated cursor, then for the limit, then with the error of the backend, then for the first record not accepted |
| Pagination.AddAllMeans | network/esplora_backend.py:197-215 | Collecting records yields distinct transactions in first-seen order, each with its best record |
| Pagination.GetHistory | network/esplora_backend.py:174-242 | The request loop computes the specified history with at most 10,000 requests |
| Pagination.AddPageLoop | network/esplora_backend.py:197-215 | The position map stays in step with the list, and a page is added as specified |
| Discovery.DiscoverMeans | wallet/service.py:429-473 | Discovery returns the used indexes below the first run of gap_limit unused addresses, scans last_used + 1 + gap_limit addresses, and fails exactly when no such run ends within the bound |
| Discovery.UsedAddressFound | wallet/service.py:429-473 | A used address is found if and only if no earlier gap reaches the limit |
| Discovery.ScanMeans | wallet/service.py:440-464 | The scan ends at the first gap, shows there is none, or reports the first address the backend could not answer for |
| Discovery.DiscoveredUsage | wallet/service.py:429-473 | The usage returned covers an unbroken run of indexes from zero and says of each whether it was used |
| Discovery.DiscoveredIsWellShaped | wallet/wallet.py:796-811 | What is discovered always passes the shape check of the commit |
| Discovery.DiscoverBranch | wallet/service.py:429-473 | The loop with its usage dictionary computes the specified discovery |
| AddressBook.RunIsContiguous | wallet/wallet.py:683-989 | In every reachable state the issued entries of each branch are exactly indexes 0 to next - 1, each once and each as derived |
| AddressBook.StepKeepsContiguous | wallet/wallet.py:683-989 | Issuing, committing, marking used and rebuilding each keep contiguity |
| AddressBook.IssueChangeIsIdempotent | wallet/wallet.py:683-757 | On a contiguous book an index is issued exactly when it is at most the next, advances at most by one, and repeating it changes nothing |
| AddressBook.RebuildRestores | wallet/wallet.py:1435-1516 | Rebuilding makes any list of entries contiguous for its counters, every entry as derived |
| AddressBook.RebuildKeepsMetadata | wallet/wallet.py:1476-1513 | Rebuilding loses no label, usage flag or creation time of a contiguous book |
| AddressBook.CommitContiguous | wallet/wallet.py:789-839 | Committing a discovery yields a contiguous book |
| AddressBook.DiscoveryCommits | wallet/service.py:398-427 | A discovery result always commits to a fresh account |
| AddressBook.IssuedIsPresent | wallet/wallet.py:683-757 | An address is in the book exactly when its index is issued |
| AddressBookFormat.IssueNextExactly | wallet/wallet.py:919-989 | On any book: a new entry is appended, or the undated one that stands there is dated now; a dated or wrongly derived one is refused |
| AddressBookFormat.IssueChangeExactly | wallet/wallet.py:683-757 | On any book: an issued index is answered from the book, the next one appended or completed, a later one refused, each error named |
| AddressBookFormat.CommitExactly | wallet/wallet.py:760-841 | A discovery is committed exactly into an untouched book from unbroken usage, one entry for each index with the flag found, and one new receive address |
| AddressBookFormat.RebuildExactly | wallet/wallet.py:1476-1516 | Rebuilding leaves one derived entry for every index, with what the last old entry of that index knew, undated ones marked recovered |
| AddressBookStore.ReceiveAddressMeans | wallet/service.py:567-611 | On a contiguous book the receive address follows the last used index; at most one address is issued and the final error is never reached |
| AddressBookStore.TargetFollowsUse | wallet/service.py:864-874 | The target is right after the highest used receive index |
| AddressBookStore.AccountRecord.IssueChangeAddress | wallet/wallet.py:683-757 | Computes the specified issue in place, or refuses with nothing changed |
| AddressBookStore.AccountRecord.IssueNextAddress | wallet/wallet.py:919-989 | Appends or completes the entry at the next index |
| AddressBookStore.AccountRecord.CommitDiscovery | wallet/wallet.py:760-841 | Fills an empty account from the two usage maps |
| AddressBookStore.AccountRecord.MarkAddressesUsed | wallet/wallet.py:1116-1149 | Sets the used flag of exactly the named addresses, entry by entry, and answers how many entries changed |
| AddressBookStore.AccountRecord.RebuildBook | wallet/wallet.py:1435-1516 | Rebuilds every entry below the counters in place and answers how many had no creation time |
| AddressBookStore.AccountRecord.GetReceiveAddress | wallet/service.py:567-611 | The service loop computes the specified answer and book |
| Accounting.PaymentAccounts | tx/workflow.py:312-329 | Funding with distinct coins lowers what is available by exactly the selected total; recording the broadcast leaves it there and lowers the effective balance by exactly the fee plus what is paid to foreign addresses |
| Accounting.SelectionWithinAvailable | wallet/transaction_accounting.py:209-234 | The selected total never exceeds the available balance |
| Accounting.SendAllWithinAvailable | wallet/transaction_accounting.py:209-234 | Nor does the total of sending everything, however often a coin is cached |
| Accounting.AvailableWithinConfirmed | wallet/transaction_accounting.py:188-234 | Without a stored chain balance the available balance is at most the confirmed one |
| Accounting.FundingLowersAvailable | wallet/transaction_accounting.py:174-242 | Funding changes no balance but the available one, which falls by exactly the selected total |
| Accounting.SendAllLowersAvailable | wallet/transaction_accounting.py:174-242 | The same of a draft that sends everything |
| Accounting.SendAllAccounts | tx/workflow.py:462-492 | The whole-payment accounts also hold of a payment that sends everything |
| Accounting.LedgerFollowsWorkflow | tx/workflow.py:130-149 | Funding, cancelling and recording change the ledger exactly as the lock sections of the workflow model change the cache entry |
| Accounting.RecordingKeepsAvailable | tx/workflow.py:854-934 | Recording a broadcast of exactly the reserved inputs leaves the available balance unchanged |
| Accounting.RecordingLowersEffective | wallet/transaction_accounting.py:88-135 | With the wallet file known and the transaction new, effective falls by the fee plus foreign outputs |
| Accounting.SignedDirection | wallet/transaction_accounting.py:245-257 | A signed transaction is a payment, or one to oneself exactly when no output leaves the wallet |
| Accounting.BalanceExactly | wallet/transaction_accounting.py:174-242 | Authoritative is what the last sync stored, confirmed and unconfirmed, or without that the value of all cached coins; available is the value of the confirmed coins neither reserved nor pending-spent; effective adds the pending delta |
| Accounting.DeltaExactly | wallet/transaction_accounting.py:199-207 | Each recorded broadcast counts with its effect until a sync has seen it, and not at all if its effect is unknown |
| Accounting.RecordedOnce | tx/workflow.py:866-934 | Recording leaves one unobserved entry for the transaction with what the wallet received less what it spent, and all others |
| Accounting.DirectionExactly | wallet/transaction_accounting.py:245-257 | A transfer is to oneself exactly when both sides are own and nothing leaves, incoming when nothing was spent or more came in than went out |
| Accounting.CalculateBalance | wallet/transaction_accounting.py:174-242 | The accumulating loops, with the fallback that sums the coins, compute the specified balance |
| Accounting.CacheEntry.RecordBroadcast | tx/workflow.py:866-934 | The cache entry is updated in place as specified and ends with a fresh balance |

## Left out

- HTTP, retries, JSON files and their shape checks, temporary files, lock timeouts, timestamps and cache age.
- Hexadecimal and text forms of transactions, ids and scripts; letter case of transaction ids.
- Address and account metadata of prevouts beyond script, type and path; the address text of single-key coins.
- SHA-256, RIPEMD-160, ECDSA, BIP32, AES and PBKDF2 themselves, and mnemonics.
- Bech32 and Bech32m text: checksum and bit conversion are in a library outside the repository.
- Wallet creation beyond storing the name, import and its rollback, rename, password change, labels.
- Persist-before-POST for the HD wallet: it records pending state only after the POST returned.
- How often a pending delta is counted across syncs that fetch coins only.
- Wallets sharing an HD cache entry, and removal of an HD wallet: the HD protocol model is of one wallet.
- Index limits of 2^31 in `HdProtocol`; `AddressBook` has them.
- The remote checks of `_validate_previous_transactions` and the coinbase maturity test.
- Message signing and verification other than the witness vectors.
- The command line, shell, completion, icons and the build script.
- SingleKeySafety.PostsOfOneTransaction: identical bytes are proved up to clearings, because without that proviso the statement is false (`SingleKeyWitness.OneIdTwoByteStrings`).
- SingleKeySafety.PostsAreSafe: orders a clearing between the intents, not between the POSTs, because between late POSTs it is false; `SingleKeyPosts.PromptPostsAreOrdered` orders the POSTs.
- SingleKeyStore.Store.ReserveInputs: the selection inside the section is a parameter (`Funding` connects it) and the age of the cache is not checked.
- SingleKeyStore.Store.RemoveWallet: the password check before the removal is not modelled.
- HdStore.Store.FundDraft: the selection inside the section is a parameter (`Funding` connects it); cache age and timestamps are not modelled.
- HdStore.Store.ReleaseDraft: the search for the wallet that owns a draft id, and its ambiguity error, are not modelled.
- HdStore.Store.IssueReserved: moves the counter only; the entry of the address book is in `AddressBook`, connected by `HdBook`.
- HdStore.Store.RecordBroadcastOf: keeps ids and outpoints only; summary and balance are in `Accounting`, connected by `Accounting.LedgerFollowsWorkflow`.
- RawReader.Deserialize: starts from bytes; the checks of the hexadecimal argument are not modelled.
- Signer.TransactionObject.SignTransaction: the size and fee metrics of the answer are not modelled.
- AddressBookStore.AccountRecord.MarkAddressesUsed: one account; the loop over the accounts of a wallet is not modelled.
- AddressBookStore.AccountRecord.RebuildBook: one account; the loop over the accounts of a wallet is not modelled.
- Accounting.CacheEntry.RecordBroadcast: the list of transaction summaries and the stored signed document are not modelled.
