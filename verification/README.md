# Verification models for the BTC-over-Lightning and on-chain swap peer

The repository coordinates swaps between BTC on Lightning and coins locked on another chain, between
peers that do not trust each other. This project models the parts of it where a mistake costs money or
lets a stranger in, and proves what they promise. `dafny verify dfyconfig.toml` checks everything. Nothing
here runs the original program.

Each module stands for one source file or one component of it:

| module | what it models |
|---|---|
| `TaoHtlc`, `TimelockPolicy`, `TaoEvmSettlementProvider` | the hash time-locked contract, the timelock policy and the settlement provider |
| `LockMessages`, `SwapRuns`, `SwapTools`, `SwapExamples` | runs of the settlement protocol with a clock, the chain, a Lightning ledger, lock messages that anyone can post, and arbitrary counterparties; what the claim and refund tools do in them |
| `ListingLocks` | the locks that keep one accepted quote per trade and one invited trade per offer line |
| `EventLog`, `EventWaiters`, `EscrowGate` | the numbered message log with its consume-once queue, what becomes of every wait on them, and the gate before a maker locks funds |
| `Gossip`, `RateLimiter`, `SeenCache`, `Invites`, `ProofOfWork` | the peer-to-peer sidechannel |
| `StableStringify`, `SignedMessage` | the canonical text everything is signed over, and signed envelopes |
| `JsonScanner`, `Bech32`, `Bolt11`, `FlagNegotiation` | the Lightning client: reading command output, invoices, and retrying until flags are accepted |
| `Consensus`, `PriceOracle` | the price feed |
| `AtomicAmount`, `ToolRepair`, `Autopost`, `SchemaCompact` | robustness around a language model's tool calls |
| `Prelude`, `Totals`, `JsText` | shared option and result types, sums over maps, and text helpers |

Code that computes a value is a function here; code that changes fields, arrays or loop variables is a
class or a method whose `ensures` ties it to such a function, and the theorems are about the function.
Where the source throws, the model returns an `Err` with the same condition.

## Assumptions

- Hashes and signatures are ideal: a swap id stands for the tuple it hashes, one signature fits one text
  under one key, and SHA-256 is a parameter. Where a preimage matters, only its own hash is used.
- A Lightning payment is one step that reveals the preimage, once per hash (no hold invoices), and the payer
  pays within `maxDelay` of the checks.
- The message log and the receipt store of a run are those of the peer whose tool a statement is about. Anyone
  can post a lock message, the log may forget old ones, and the stored settlement ids may change in any way,
  since terminal messages from anyone change them too.
- Time is read from one clock that does not go back, except where a property is stated for any clock.
- Tool calls that take listing locks do not overlap each other, the receipts store is there and its calls do
  not fail. Rows are listed newest first, with no two updates at the same millisecond.
- Numbers are mathematical: integers where the source has integers, reals where it has fractions.

## Where code and expectation part

The code is modelled as it is. What follows is proved, with the exact condition or the failing family:

- The contract deletes a swap when it is claimed, so "one lock per id" and "claimed and refunded exclude each
  other" hold per lock, not per id (`TaoHtlc.RelockExact`, `SwapRuns.ClaimedThenRefundedId`).
- The pay tool compares the hash inside the invoice string with the agreed hash only after paying, and its
  amount with the agreed amount never (`SwapRuns.UncomparedInvoice`, `SwapExamples.UncomparedInvoiceExamples`,
  `SwapRuns.PaidPayerIsCovered`, `SwapRuns.PaidAmountExactly`).
- The claim and refund tools act on the swap that the latest lock message of the trade names, whoever posted it.
  A message for another hash, contract or swap after the payment keeps the payer's tool from claiming until the
  owner may take the coins back (`SwapTools.PaidPayerClaims`, `SwapTools.LateMessageCostsPayer`,
  `SwapExamples.LateMessageExample`); the refund tool has the same dependence (`SwapTools.RefundToolExactly`).
- An invoice without a payment hash or without an amount passes whatever hash or amount the message around it
  states (`Bolt11.MessageMatchesInvoice`, `Bolt11.HashPinnedExactly`, `Bolt11.AmountPinnedExactly`,
  `Bolt11.BareInvoicePasses`).
- A call that fails after its message got out can lose its listing lock, and then the listing is taken again:
  `ListingLocks.KeepsExactly` says exactly when, `ListingLocks.LostLineAdmitsOthers` and
  `ListingLocks.LostTradeAdmitsOthers` what follows, and `ListingLocks.LostReplyAdmitsSecondQuote` and
  `ListingLocks.InterruptedInviteLosesLock` give two families. A late claim can be overwritten
  (`ListingLocks.FilledStep`, `ListingLocks.FinishOverwritesFilled`).
- A lock transaction that is broadcast and then fails leaves the provider's metadata behind
  (`TaoEvmSettlementProvider.Provider.Lock`).
- The check that a node was itself invited never refuses, because an invite-requiring node always counts itself
  among the inviters (`Invites.PassExactly`).
- An error text that lists known flags can make the retry loop give up a supported one. The exact condition is
  on the branch each complaint takes (`FlagNegotiation.PayBestExactly`, `FlagNegotiation.RoutesBestExactly`);
  `FlagNegotiation.UsageTextLosesFeeLimit` is a failing family.
- "Existing values win" does not cover values under a misspelt name, and an offers list whose first entry is
  no object is replaced (`ToolRepair.MisspeltExactly`, `ToolRepair.FlattenedLands`).
- Pruning counts the same claims again at every pass (`Autopost.RepeatedPruning`).
- Compaction can tighten a schema with oneOf, with patternProperties beside additionalProperties, with
  prefixItems beside items since draft 2020-12, or with a $ref up to draft-07 (`SchemaCompact.OneOfTightens`,
  `SchemaCompact.PatternsTighten`, `SchemaCompact.PrefixTightens`, `SchemaCompact.RefTightens`). Without these
  it only relaxes (`SchemaCompact.Relaxes`); dropping `not` is harmless.

## Model

| member | source | states |
|---|---|---|
| `StableStringify.RoundTrip` | src/util/stableStringify.js:1-11 | Parsing the printed text by RFC 8259 (sections 4 to 7) gives back the JSON value and exactly the text that followed it, for every value with integer numbers. |
| `StableStringify.Canonical` | features/sidechannel/index.js:13-21 | Two values print alike exactly when they are the same JSON value, objects being read as unordered maps. |
| `StableStringify.SortKeysSorted` | src/util/stableStringify.js:7 | Sorting the property names of an object yields the same names in strictly ascending UTF-16 order. |
| `StableStringify.SortedUnique` | src/util/stableStringify.js:7 | A set of names has only one such order. |
| `StableStringify.StringRoundTrip` | src/util/stableStringify.js:3 | A printed string, with its escapes and lone surrogates, reads back as itself. |
| `StableStringify.EscapesExactly` | src/util/stableStringify.js:3 | Exactly quotes, backslashes, control characters and lone surrogates are escaped, by a letter where there is one and else in lower-case hexadecimal. |
| `StableStringify.PlainKept` | src/util/stableStringify.js:3 | A string without them is printed as it is. |
| `StableStringify.NumberRoundTrip` | src/util/stableStringify.js:3 | A printed integer reads back as itself. |
| `StableStringify.IntegerExactly` | src/util/stableStringify.js:3 | It is printed without leading zeros, and with a sign only below zero. |
| `StableStringify.SameMeaningSameText` | src/util/stableStringify.js:1-11 | Key order at any depth does not show in the text. |
| `SignedMessage.SignedEnvelopeVerifies` | src/protocol/signedMessage.js:25-69 | Signing, attaching and verifying succeeds exactly on envelopes that do not already have a `sig` or `signer` key. |
| `SignedMessage.CreatedEnvelopeVerifies` | src/protocol/signedMessage.js:5-69 | What createUnsignedEnvelope builds always verifies once signed. |
| `SignedMessage.CreatedExactly` | src/protocol/signedMessage.js:5-18 | When an envelope can be created, and that kind, trade id, time, nonce, version and body each go under their own key and nothing else does. |
| `SignedMessage.VerifiesExactly` | src/protocol/signedMessage.js:51-69 | An envelope verifies exactly when its signature is its signer's over the canonical text of everything else in it. |
| `SignedMessage.ReorderingKeepsVerdict` | src/protocol/signedMessage.js:51-69 | The verdict depends on the JSON value of the envelope only: any reordering of keys keeps it. |
| `SignedMessage.SignatureBindsOneValue` | src/protocol/signedMessage.js:20-69 | With an ideal signature scheme, two envelopes that verify with the same signature and signer are the same JSON value. |
| `TaoHtlc.LockKeeps` | settlement/tao-evm/contracts/TaoHTLC.sol:28-55 | A lock opens a swap under an id that was free, and keeps every open swap backed by the contract's balance and the coin supply unchanged. |
| `TaoHtlc.LockExact` | settlement/tao-evm/contracts/TaoHTLC.sol:28-55 | A lock succeeds exactly with a positive amount the caller has, a receiver, a refund time ahead and a free id; it takes the amount from the caller alone and opens that swap. |
| `TaoHtlc.ClaimExact` | settlement/tao-evm/contracts/TaoHTLC.sol:57-72 | A claim succeeds exactly on an open swap with a 32-byte preimage of its hashlock; it closes the swap and pays the receiver its amount. |
| `TaoHtlc.RefundExact` | settlement/tao-evm/contracts/TaoHTLC.sol:74-88 | A refund succeeds exactly on an open swap from its refund time on; it closes the swap and pays the sender. |
| `TaoHtlc.RelockExact` | settlement/tao-evm/contracts/TaoHTLC.sol:36-72 | A claim deletes its record, so the id can be locked again exactly while its own refund time is still ahead. |
| `TaoHtlc.RefundedNeverRelocked` | settlement/tao-evm/contracts/TaoHTLC.sol:36-88 | A refunded id can never be locked again. |
| `TaoHtlc.NestedCallFails` | settlement/tao-evm/contracts/TaoHTLC.sol:57-88 | A claim or refund of the same swap made by the paid account during the transfer fails, because the record is gone by then. |
| `TaoHtlc.Contract.DoLock` | settlement/tao-evm/contracts/TaoHTLC.sol:28-55 | The stored mapping and balances after a lock, or every refusal with nothing changed. |
| `TaoHtlc.Contract.DoClaim` | settlement/tao-evm/contracts/TaoHTLC.sol:57-72 | The same for a claim. |
| `TaoHtlc.Contract.DoRefund` | settlement/tao-evm/contracts/TaoHTLC.sol:74-88 | The same for a refund. |
| `TimelockPolicy.SafeWindow` | src/swap/timelockPolicy.js:8-65 | A verdict of safe leaves the required time between every moment the invoice may still be paid and the refund deadline. |
| `TimelockPolicy.VerdictExactly` | src/swap/timelockPolicy.js:9-65 | Each of the five verdicts by the times alone: safe exactly when the refund time is usable, now is far enough before it, and the expiry of the invoice, if any, is too, in the strict form and in the other. |
| `TaoEvmSettlementProvider.PrePayExact` | settlement/tao-evm/TaoEvmSettlementProvider.js:460-696 | The whole chain of pre-pay checks succeeds exactly when the lock message repeats the signed terms and the chain holds an open swap with the agreed amount, parties, hash and refund time, safely far away. |
| `TaoEvmSettlementProvider.LockRequestExactly` | settlement/tao-evm/TaoEvmSettlementProvider.js:300-332 | What is locked, by what was asked: recipient, amount, hash, refund time and salt as given, with each refusal. |
| `TaoEvmSettlementProvider.OpenSwapVerifies` | settlement/tao-evm/TaoEvmSettlementProvider.js:404-458 | The basic on-chain check succeeds exactly on an open swap with the hash, before its refund time. |
| `TaoEvmSettlementProvider.ClosedReadsAsMissing` | settlement/tao-evm/TaoEvmSettlementProvider.js:404-458 | The contract deletes closed swaps, so the provider's 'swap not active' answer never occurs: a closed swap reads as not found. |
| `TaoEvmSettlementProvider.Provider.Lock` | settlement/tao-evm/TaoEvmSettlementProvider.js:300-402 | Up to the broadcast a refusal changes nothing; from then on the metadata names the swap whether or not the transaction is mined successfully. A successful lock opens one swap with the requested parties, amount, hash and time, and passes the payer's check at any time before the refund. |
| `TaoEvmSettlementProvider.Provider.Claim` | settlement/tao-evm/TaoEvmSettlementProvider.js:712-731 | A claim through the provider succeeds exactly when the contract accepts it, and then records the preimage for that swap only. |
| `TaoEvmSettlementProvider.Provider.Refund` | settlement/tao-evm/TaoEvmSettlementProvider.js:733-749 | A refund through the provider succeeds exactly when the contract accepts it, and then marks that swap closed. |
| `SwapRuns.RunKeeps` | src/prompt/executor.js:7416-7797 | Whatever locks, claims, refunds, payments, overlapping pay calls, tool calls and lock messages happen in whatever order: locks, money, deals and secrets stay accounted for. |
| `SwapRuns.PayMoment` | src/prompt/executor.js:7470-7600 | At the moment any of the open pay calls pays, its coins are locked as agreed and stay unrefundable for the timelock margin less the assumed delay, or have already been paid out. |
| `SwapRuns.DealExactly` | src/prompt/executor.js:7416-7556 | The checks before a payment pass exactly on terms, messages and an open swap that agree and leave the times apart, stated without the code's own verdicts. |
| `SwapRuns.PayDealExactly` | src/prompt/executor.js:7535-7600 | An open pay call pays, from the payer and in full, exactly when there is a route, it is in time and the invoice can be settled; it ends in any case, and no other call does. |
| `SwapRuns.SettleExactly` | src/prompt/executor.js:7553-7597 | A payment moves exactly the invoice's amount from payer to payee, once per hash, to who knows the preimage. |
| `SwapRuns.PaidPayerIsCovered` | src/prompt/executor.js:7480-7600 | From then until the refund time a contract call with the revealed preimage claims the swap and pays the agreed amount to the agreed receiver, exactly when the invoice string carried the hash stated beside it. |
| `SwapTools.PaidPayerClaims` | src/prompt/executor.js:7635-7704 | The claim tool, used in that time, pays the agreed receiver exactly when moreover the lock messages of the trade announce the paid swap; otherwise the swap stays locked. |
| `SwapTools.UndisturbedPayerIsPaid` | src/prompt/executor.js:7416-7704 | Once the log names the swap, a payer of the agreed invoice is paid whenever the claim tool is used before the refund time, whatever else anyone does, as long as no lock message that fails to name the swap follows and the log does not forget the trade's messages. |
| `SwapTools.NamedExactly` | src/prompt/executor.js:7657-7686 | An event takes that announcement away exactly when it is such a message or such a loss. |
| `SwapTools.LateMessageCostsPayer` | src/prompt/executor.js:7657-7686 | After any payment, one lock message for another hash, from anyone, makes the claim tool refuse until the lock's owner takes the coins back. |
| `SwapExamples.LateMessageExample` | src/prompt/executor.js:7416-7704 | A concrete run of this: everything paid as agreed, and the coins go back. |
| `SwapRuns.PaymentsUseDistinctSwaps` | src/prompt/executor.js:7416-7634 | Two payments are never covered by the same lock. |
| `SwapRuns.RunConserves` | settlement/tao-evm/TaoEvmSettlementProvider.js:300-749 | Every lock ends in at most one of claim and refund, an id is refunded at most once, TAO and BTC totals are conserved, and each account is explained by its locks, claims and refunds. |
| `SwapRuns.LockOwnerIsCovered` | src/prompt/executor.js:7083-7200 | The owner of a lock loses the coins only after the invoice behind the hash was paid in full, and from the refund time on a contract call takes them back. |
| `SwapTools.RefundToolExactly` | src/prompt/executor.js:7799-7866 | The refund tool returns an open lock from its refund time on exactly when the lock messages of the trade announce it under the given hash. |
| `LockMessages.TargetExact` | src/prompt/executor.js:7657-7702 | The tools act on a swap exactly when the latest lock message of the trade fits its hash and contract and names it, or leaves the name to the receipt store; without any message the store decides. |
| `LockMessages.PostDecides` | src/prompt/executor.js:7657-7702 | One more message of the trade decides alone; one of another trade changes nothing. |
| `LockMessages.LatestKept` | src/prompt/executor.js:7657-7670 | Forgetting old messages matters only once all of the trade's are gone. |
| `LockMessages.FindLatest` | src/prompt/executor.js:7657-7670 | The backward scan finds the latest lock message of the trade. |
| `LockMessages.FindTarget` | src/prompt/executor.js:7672-7702 | The checks and the choice of settlement id. |
| `SwapRuns.ClaimedThenRefundedId` | settlement/tao-evm/contracts/TaoHTLC.sol:28-88 | One id can be claimed once and, locked again, refunded once: the exclusion is per lock. |
| `SwapRuns.UncomparedInvoice` | src/prompt/executor.js:7476-7597 | After any run, for any swap locked as agreed, every payable invoice string passes the checks on messages and chain, and is paid as soon as there is a route; the preimage fails to open the lock exactly when the string is for another hash, and the amount paid is wrong exactly when the string names another amount. |
| `SwapExamples.UncomparedInvoiceExamples` | src/prompt/executor.js:7476-7597 | Concrete runs: a payment for another hash that opens nothing, and one for 600 instead of 1000 sats. |
| `SwapRuns.PaidAmountExactly` | src/prompt/executor.js:1047-1049 | What was paid is the amount of the terms exactly when the invoice string says so; nothing compares the two. |
| `EventLog.RunKeeps` | src/prompt/executor.js:2027-2104 | In every reachable state the log is the last maxLog events numbered without gaps, every arrival has exactly one fate (queued, delivered to one waiter, dropped) in arrival order, no queued event matches a pending waiter, and no log waiter is behind the log. |
| `EventLog.StepKeeps` | src/prompt/executor.js:2027-2104 | Each inbound event, outbound event, wait, log wait and timeout keeps that invariant. |
| `EventLog.ReaderMissesNothing` | src/prompt/executor.js:2206-2231 | A reader of any channels that asks for what follows the events it has seen gets the next ones on its channels, all of them up to its limit, as long as no more than maxLog came in between. |
| `EventLog.LateReader` | src/prompt/executor.js:2206-2231 | A reader that has fallen further behind gets what the log still has, from its oldest event on. |
| `EventLog.FreshExact` | src/prompt/executor.js:2206-2231 | What such a reader is due: every event received after the given number on its channels, with its number. |
| `EventLog.Bus.ScLogAppend` | src/prompt/executor.js:2027-2044 | Appends with the next number, trims the log, and wakes exactly the log waiters that were behind. |
| `EventLog.Bus.OnScEvent` | src/prompt/executor.js:2046-2104 | Hands the event to the oldest waiter whose filter takes it, or queues it and trims the queue. |
| `EventLog.Bus.ScWaitFor` | src/prompt/executor.js:2414-2436 | Takes the oldest queued event the filter takes, or starts waiting, or gives up at once without a timeout. |
| `EventLog.Bus.ScLogRead` | src/prompt/executor.js:2206-2231 | Returns the entries after the given number on the given channels, up to the clamped limit. |
| `EventLog.Bus.ScLogWait` | src/prompt/executor.js:2233-2245 | Answers at once exactly when the log is past the given number; otherwise waits. |
| `EventLog.Bus.OnWaitTimeout` | src/prompt/executor.js:2428-2431 | A timeout removes its own waiter and nothing else. |
| `EventLog.Bus.OnLogWaitTimeout` | src/prompt/executor.js:2238-2241 | A timeout removes its own log waiter and nothing else. |
| `EventWaiters.RunWaits` | src/prompt/executor.js:2027-2104 | In every reachable state the pending waiters are exactly the open waits, with their filters and oldest first, and so are the log waiters. |
| `EventWaiters.EveryWaitIsExact` | src/prompt/executor.js:2414-2436 | Of a wait that was told to wait exactly one holds: its waiter is pending with its filter, or it got exactly one event, one its filter takes, or its timer fired first. |
| `EventWaiters.OldestIsServed` | src/prompt/executor.js:2088-2098 | An event that arrives goes to the oldest open wait whose filter takes it, and to nobody only where there is none. |
| `EventWaiters.TimeoutExactly` | src/prompt/executor.js:2428-2431 | A timer ends its own wait and no other. |
| `EventWaiters.EveryLogWaitIsExact` | src/prompt/executor.js:2233-2245 | A log wait is pending exactly until the log passes its number or its timer fires. |
| `EventWaiters.LogTimeoutExactly` | src/prompt/executor.js:2238-2241 | A log timer ends its own wait and no other. |
| `EventWaiters.QueueAfterArrival` | src/prompt/executor.js:2089-2104 | The queue after an event: unchanged where an open wait takes it, and else with the event at its end, without its oldest one where it was full. |
| `EventWaiters.QueueAfterWait` | src/prompt/executor.js:2414-2436 | A wait takes the oldest queued event its filter takes; where there is none it leaves the queue alone and registers, if it may wait. |
| `EventWaiters.LostOnlyWhenFull` | src/prompt/executor.js:2100-2103 | Over every run an event is lost only after maxQueue later ones have arrived. |
| `ListingLocks.OneQuotePerTrade` | src/prompt/executor.js:4862-4972 | From any lock table and in any run of tool calls one at a time, with claims, refunds and cancels arriving even in the middle of a call: between releases all QUOTE_ACCEPTs posted for a trade name one quote, unless a failing call loses the lock of its own delivered message. |
| `ListingLocks.OneTradePerOfferLine` | src/prompt/executor.js:5117-5258 | All SWAP_INVITEs posted for one offer line belong to one trade until that trade is released, unless a failing invite loses the lock of its own delivered message; what happens to quote_accepts does not matter. |
| `ListingLocks.KeepsExactly` | src/prompt/executor.js:4862-5258 | A step breaks the lock invariant exactly when a call fails whose message is out and not released since, and whose lock is missing or removed by the failure: a created lock of a quote_accept, or of an unposted invite. |
| `ListingLocks.LostLineAdmitsOthers` | src/prompt/executor.js:5117-5258 | Once an invite's lock is lost in that way, every other trade is invited to the line at once. |
| `ListingLocks.AcceptExactly` | src/prompt/executor.js:4865-4943 | By the rows alone: a quote_accept that is not refused earlier is a replay exactly when the trade's slot is held in flight with this quote, and locks exactly when the slot is free and among the first 2000 rows of the trade no older one is taking it, or the first such is in flight with this quote. |
| `ListingLocks.InviteExactly` | src/prompt/executor.js:5120-5142 | An invite goes through exactly when its line is free, or held in flight by its own trade. |
| `ListingLocks.AcceptPosts` | src/prompt/executor.js:4865-4951 | A quote_accept that goes through then posts exactly one message, for its trade and quote; any other changes nothing. |
| `ListingLocks.InvitePosts` | src/prompt/executor.js:5120-5216 | The same for an invite. |
| `ListingLocks.CallEndsExactly` | src/prompt/executor.js:4952-4968 | How a call ends: finished, its slot is in flight for it; failed, its slot is freed exactly where the call had locked it and is not a posted invite's. No other slot changes. |
| `ListingLocks.LostTradeAdmitsOthers` | src/prompt/executor.js:4905-4968 | Once a quote_accept's lock is lost, another quote of the trade is accepted exactly when no row of an older version stands in its way. |
| `ListingLocks.FilledStep` | src/prompt/executor.js:795-864 | A step takes a filled lock away exactly when it is the release of its trade, or the end of a call on the slot that had passed its check before. |
| `ListingLocks.FilledUntilReleased` | src/prompt/executor.js:795-821 | A filled lock stays filled and nothing more is posted on its slot until its trade is released, unless a call had already passed its check. |
| `ListingLocks.ClaimFills` | src/prompt/executor.js:835-855 | A claim fills every lock of the trade that the listing limit of 2000 reaches. |
| `ListingLocks.ClaimKeepsOthers` | src/prompt/executor.js:835-855 | A claim changes no lock of another trade, and of its own nothing but the state. |
| `ListingLocks.ReleaseExactly` | src/prompt/executor.js:857-864 | A release frees the slots of its trade and no other. |
| `ListingLocks.LostReplyAdmitsSecondQuote` | src/prompt/executor.js:4944-4968 | A send that is delivered although the call fails removes the lock, and a second quote of the same trade is then accepted. |
| `ListingLocks.InterruptedInviteLosesLock` | src/prompt/executor.js:5120-5258 | A release between an invite's lock and its post, and a failure after the post, leave a live invite without a lock, and another trade is invited to the line. |
| `ListingLocks.FinishOverwritesFilled` | src/prompt/executor.js:4952-4960 | A claim seen while the trade's own call finishes is overwritten: the lock is in flight again. |
| `ListingLocks.Tools.QuoteAcceptLock` | src/prompt/executor.js:4865-4943 | The lock check and write of quote_accept: replay of the same quote, refusal of another, and the rows of older versions. |
| `ListingLocks.Tools.SwapInviteLock` | src/prompt/executor.js:5120-5142 | The lock check and write of an invite. |
| `ListingLocks.Tools.FinishCall` | src/prompt/executor.js:4952-4960 | After a post the lock is written again, in flight. |
| `ListingLocks.Tools.CatchError` | src/prompt/executor.js:4962-4968 | After a failure a lock this call created is removed, except an invite's once the invite was posted. |
| `ListingLocks.Tools.MarkListingLocksFilledByTrade` | src/prompt/executor.js:835-855 | Fills the listed locks of a trade, keeping their quotes. |
| `ListingLocks.Tools.ReleaseListingLocksByTrade` | src/prompt/executor.js:857-864 | Deletes all locks of a trade. |
| `EscrowGate.CheckGate` | src/prompt/executor.js:7005-7083 | The two backward scans let the maker lock funds exactly when the latest terms name a valid payer, an invoice for the hash was posted, and after the latest one that payer's last word is an OK note; every refusal means what it says. |
| `EscrowGate.ScanTermsAndInvoice` | src/prompt/executor.js:7014-7034 | Finds the latest terms and the latest matching invoice of the swap, or that there is none. |
| `EscrowGate.ScanReports` | src/prompt/executor.js:7040-7068 | Finds the latest OK and FAIL notes of the payer after the invoice. |
| `EscrowGate.InvoiceShuts` | src/prompt/executor.js:7026-7030 | A newly posted invoice shuts the gate until the payer confirms it anew. |
| `EscrowGate.ReportDecides` | src/prompt/executor.js:7058-7080 | One more note of the payer decides alone: OK opens the gate, FAIL shuts it. |
| `EscrowGate.OthersLeaveIt` | src/prompt/executor.js:7014-7068 | No other message changes it, new terms naming the same payer included. |
| `EscrowGate.KeptLogIsNumbered` | src/prompt/executor.js:2027-2034 | The log the scans read has strictly increasing numbers, which they rely on. |
| `JsText.Hex64Exactly` | src/prompt/executor.js:7027 | The payer key must be 64 lower-case hexadecimal digits. |
| `Gossip.Safety` | features/sidechannel/index.js:829-909 | For one id on any finite graph and any losses, refusals and orders: a peer accepts it at most once and the origin never, an accepting peer is within relayTtl + 1 links, each link carries it at most once, and sends and deliveries are bounded by the links. |
| `Gossip.RunKeeps` | features/sidechannel/index.js:300-320 | The invariant behind it, kept by every delivery. |
| `Gossip.DeliveryDescends` | features/sidechannel/index.js:829-909 | Each delivery lowers the pair of peers that have not seen the id and packets on the wire, so every broadcast ends. |
| `Gossip.EveryoneHears` | features/sidechannel/index.js:300-320 | Without losses and with a time to live of at least the number of other peers, every reachable peer has accepted once the wire is empty. |
| `Gossip.NeverEchoed` | features/sidechannel/index.js:300-320 | Over every run no peer sends the id back over the link on which it accepted it. |
| `Gossip.RelayExactly` | features/sidechannel/index.js:300-320 | A relay sends one packet, with one less to live, to each authorized neighbour but the one it came from, exactly when relaying is on and there is time to live left. |
| `Gossip.BroadcastExactly` | features/sidechannel/index.js:1099-1122 | A broadcast goes to the authorized neighbours of the origin, each once. |
| `Gossip.DeliverExactly` | features/sidechannel/index.js:829-909 | What one delivery does to who has seen and accepted the id and to what is sent. |
| `Gossip.Relay` | features/sidechannel/index.js:300-320 | The relay loop sends to every authorized open neighbour but the one it came from, with the time to live lowered by one, and to none when it has run out. |
| `JsonScanner.LastDocument` | src/ln/client.js:7-76 | Output holding several JSON objects or arrays, with any white space between and around them and any brackets, quotes and escapes in their strings, yields the last one, for every parser that reads these values and nothing beyond RFC 8259. |
| `JsonScanner.LastBeforeNoise` | src/ln/client.js:7-76 | Values followed by other text: the last one that can be read is the result, and the trimmed text where none can. |
| `JsonScanner.QuietIsRaw` | src/ln/client.js:7-28 | Text that opens no bracket and is no JSON is handed back trimmed. |
| `JsonScanner.StreamIsNoJson` | src/ln/client.js:11-13 | Several values in a row are never one JSON text, so parsing the whole output fails and the scan takes over. |
| `JsonScanner.OneChunkPerValue` | src/ln/client.js:18-66 | The brace-matching loop cuts exactly one chunk per value. |
| `JsonScanner.GroupMatched` | src/ln/client.js:29-59 | Counting one kind of bracket outside strings stops exactly at the end of a balanced group, whatever follows. |
| `JsonScanner.JsonIsGroup` | src/ln/client.js:7-76 | Every RFC 8259 object or array text is such a group. |
| `JsonScanner.FindEnd` | src/ln/client.js:29-59 | The inner loop over position, depth, string and escape state finds the end the specification defines, or that there is none. |
| `JsonScanner.Extract` | src/ln/client.js:18-66 | The outer loop collects the parsed values of the chunks in order, skipping chunks that do not parse. |
| `JsonScanner.ParseJsonOrJsonLines` | src/ln/client.js:7-76 | The whole function: empty text, one JSON text, the last of several values, or the raw text. |
| `Bolt11.InvoiceRoundTrip` | src/ln/bolt11.js:13-122 | Decoding any encoded invoice gives back its currency, timestamp, expiry (3600 without an x field), and its payment hash and exact amount where it has them, whatever other fields and signature there are. |
| `Bolt11.HrpRoundTrip` | src/ln/bolt11.js:13-53 | For every multiplier the amount is exact, ten pico-bitcoin to the millisatoshi, and is refused exactly when that is not a whole number. |
| `Bolt11.NoAmountRoundTrip` | src/ln/bolt11.js:13-26 | A prefix without amount gives the currency and no amount. |
| `Bolt11.AmountExactly` | src/ln/bolt11.js:26-53 | An amount is read exactly when it is missing, or digits with a known unit that make whole millisatoshi, and has that value. |
| `Bolt11.HrpExactly` | src/ln/bolt11.js:13-26 | Any prefix "ln", currency and amount, with the amount at the first digit, is read exactly when the amount can be. |
| `Bolt11.TakeAllExact` | src/ln/bolt11.js:101-110 | The field list is refused exactly when some p or x field is unreadable; otherwise the last of each counts and every other field is ignored. |
| `Bolt11.DecodeExactly` | src/ln/bolt11.js:65-122 | An invoice decodes exactly when its prefix does, there is room for timestamp and signature, the timestamp is not zero, and the words between are readable tagged fields. |
| `Bolt11.SplitExact` | src/ln/bolt11.js:91-100 | Words that are not cut short are the encoding of one list of fields. |
| `Bolt11.SplitEncoded` | src/ln/bolt11.js:91-100 | Every list of fields is read back from its encoding. |
| `Bolt11.ScanEncoded` | src/ln/bolt11.js:91-111 | The loop over encoded fields takes them one by one in order. |
| `Bolt11.SignatureUnread` | src/ln/bolt11.js:83-111 | The signature words never influence the result. |
| `Bolt11.NumberRoundTrip` | src/ln/bolt11.js:7-11 | A number written in 5-bit words reads back as itself. |
| `Bolt11.WordsToBigInt` | src/ln/bolt11.js:7-11 | The accumulating loop computes the big-endian value of the words. |
| `Bolt11.ParseHrpAmountMsat` | src/ln/bolt11.js:13-53 | The prefix parser with its scan for the first digit. |
| `Bolt11.ReadField` | src/ln/bolt11.js:91-111 | One turn of the field loop advances and stays below the signature words. |
| `Bolt11.ScanFields` | src/ln/bolt11.js:86-111 | The field loop reads exactly the words between timestamp and signature. |
| `Bolt11.DecodeBolt11` | src/ln/bolt11.js:65-122 | The decoder, with its errors in order. |
| `Bolt11.MessageMatchesInvoice` | src/ln/bolt11.js:124-155 | An invoice message passes exactly when every field it states is the one the quoted invoice was encoded with, or is a hash or an amount that the invoice does not have. |
| `Bolt11.MatchExact` | src/ln/bolt11.js:124-155 | An invoice message passes exactly when hash, amount and expiry each are unstated, unknown where that is let through, or equal. |
| `Bolt11.HashPinnedExactly` | src/ln/bolt11.js:133-136 | Messages stating different payment hashes both pass exactly when the invoice has none. |
| `Bolt11.AmountPinnedExactly` | src/ln/bolt11.js:138-143 | Messages stating different amounts both pass exactly when the invoice has none. |
| `Bolt11.BareInvoicePasses` | src/ln/bolt11.js:124-155 | A concrete invoice without p field and amount passes whatever hash and amount are stated. |
| `Bech32.BytesRoundTrip` | src/ln/bolt11.js:104-105 | Bytes regrouped into 5-bit words with zero padding come back unchanged. |
| `RateLimiter.WindowBound` | features/sidechannel/index.js:228-258 | Bytes accepted between t0 and t1 are at most burst plus rate times the elapsed time, for every sequence of frames with a clock that does not go back. |
| `RateLimiter.AcceptedExactly` | features/sidechannel/index.js:238-257 | Outside a block a frame is accepted exactly when it is at most the burst and at most the tokens left after the last call plus the rate times the time since; what it takes is gone. |
| `RateLimiter.RefillsFully` | features/sidechannel/index.js:228-258 | In every run, after burst / rate seconds without frames and outside a block, every frame of at most the burst is accepted. |
| `RateLimiter.FreshAccepts` | features/sidechannel/index.js:206-220 | A new connection takes a whole burst at once. |
| `RateLimiter.RunWithin` | features/sidechannel/index.js:240-246 | Tokens stay between zero and the burst. |
| `RateLimiter.NothingWhileBlocked` | features/sidechannel/index.js:222-231 | Nothing is accepted and nothing changes while blocked. |
| `RateLimiter.BlockNeedsStrikes` | features/sidechannel/index.js:233-255 | Every block lasts blockMs and follows at least maxStrikes refusals inside one strike window, the last at that moment. |
| `RateLimiter.BlocksExactly` | features/sidechannel/index.js:233-255 | A refusal blocks exactly when it and those before it in the strike window reach maxStrikes; an accepted frame blocks nothing. |
| `RateLimiter.Limiter.CheckRate` | features/sidechannel/index.js:228-258 | The method: new limiter state and answer for every frame. |
| `SeenCache.AcceptedAgain` | features/sidechannel/index.js:186-204 | An id is accepted as new twice only if more than the time to live passed in between, or maxSeen other ids, all different, were accepted. |
| `SeenCache.RunBounded` | features/sidechannel/index.js:194-204 | The cache never holds more than maxSeen ids, none twice, in the order of their times. |
| `SeenCache.RunExactly` | features/sidechannel/index.js:186-204 | With a clock that does not go back the cache holds exactly the ids among the last maxSeen accepted that were not too old when the last one was. |
| `SeenCache.DuplicateExactly` | features/sidechannel/index.js:194-200 | So a call is told that an id was seen exactly when one of those has it. |
| `SeenCache.PurgeExact` | features/sidechannel/index.js:186-192 | Stopping at the first fresh entry still removes exactly the expired ones. |
| `SeenCache.Seen.PurgeSeen` | features/sidechannel/index.js:186-192 | The purge loop. |
| `SeenCache.Seen.RememberSeen` | features/sidechannel/index.js:194-204 | Insert, evict the oldest over the bound, purge; a known id changes nothing, an empty one is never remembered. |
| `Invites.RunKeeps` | features/sidechannel/index.js:351-468 | Every remembered expiry is backed by a verified invite for that channel whose invitee, or for a locally accepted one whose inviter, is that key. |
| `Invites.StepKeeps` | features/sidechannel/index.js:351-468 | Messages, open requests, local accepts, authorization look-ups, added inviters and removed channels all keep that. |
| `Invites.PassNeedsInvite` | features/sidechannel/index.js:457-468 | On an invite-required channel a payload passes only from a configured inviter or a peer with an unexpired backing invite. |
| `Invites.PassExactly` | features/sidechannel/index.js:98-113 | Because an invite-requiring node counts itself an inviter, whether it was itself invited is never asked; without a key of its own it refuses everything. |
| `Invites.MessageExactly` | features/sidechannel/index.js:457-468 | Who passes a payload where invites are asked for, for any state of the node, and what it leaves behind: an invite that counted is remembered, an expired record is dropped. |
| `Invites.OpenExactly` | features/sidechannel/index.js:876-892 | A channel may be opened exactly without a need for invites or with one that counts, which is then remembered. |
| `Invites.AuthorizeExactly` | features/sidechannel/index.js:715-720 | A peer is authorized exactly where no invite is asked for, as an inviter, or with a record that has not expired. |
| `Invites.AcceptLocalExactly` | features/sidechannel/index.js:442-455 | A node accepts exactly valid invites for its own key, from anyone, and remembers channel and inviter until they expire. |
| `Invites.RequiredExactly` | features/sidechannel/index.js:329-342 | Where invites are asked for: never on the entry channel; else on every channel, or on the listed ones and those with a listed prefix. |
| `Invites.FreshExactly` | features/sidechannel/index.js:97-113 | The inviters at the start: the configured keys, and the node's own where invites are required. |
| `Invites.AddInviterExactly` | features/sidechannel/index.js:1048-1055 | A well-formed key becomes an inviter, and nobody else does. |
| `Invites.RemovedForgets` | features/sidechannel/index.js:1002-1008 | Removing a channel forgets its invites and no others. |
| `Invites.RemoveExactly` | features/sidechannel/index.js:978-1008 | Exactly which channels can be removed, and what is forgotten. |
| `Invites.Node.CheckPayload` | features/sidechannel/index.js:457-468 | The payload check, with its deletions of expired records. |
| `Invites.Node.VerifyInvite` | features/sidechannel/index.js:409-440 | A remote's invite is remembered exactly when it verifies. |
| `Invites.Node.AcceptLocalInvite` | features/sidechannel/index.js:442-455 | A local accept records the channel and the inviter with the invite's expiry. |
| `Invites.Node.InviteRequired` | features/sidechannel/index.js:329-342 | Which channels require invites: entry channel, list, prefixes. |
| `Invites.Node.RemoteAuthorized` | features/sidechannel/index.js:715-720 | Who is sent to. |
| `Invites.Node.AddInviterKey` | features/sidechannel/index.js:1048-1055 | Adds a well-formed key and nothing else. |
| `Invites.Node.ForgetChannel` | features/sidechannel/index.js:978-1008 | Drops the per-channel state of a registered channel that is not the entry channel. |
| `ProofOfWork.ZerosMeanSmall` | features/sidechannel/index.js:43-58 | A digest has at least d leading zero bits exactly when its number is below 2^(length - d). |
| `ProofOfWork.WorksExactly` | features/sidechannel/index.js:550-585 | A nonce works exactly when the digest of the covered fields, read as a number, is small enough. |
| `ProofOfWork.RequiredExactly` | features/sidechannel/index.js:322-327 | Where work is asked for. |
| `ProofOfWork.CountLeadingZeroBits` | features/sidechannel/index.js:43-58 | The two nested loops compute that count. |
| `ProofOfWork.AttachPow` | features/sidechannel/index.js:562-575 | Where some nonce up to a bound works, the search stops at the least one. |
| `ProofOfWork.CheckPow` | features/sidechannel/index.js:577-585 | A message passes exactly when no work is required or its nonce works at the configured difficulty. |
| `ProofOfWork.WorkSurvivesRelay` | features/sidechannel/index.js:300-311 | Lowering the time to live and naming the relay do not spoil the work. |
| `ProofOfWork.WorkBindsContent` | features/sidechannel/index.js:550-560 | Two messages are hashed over the same text only when the covered fields and the nonce are the same. |
| `Consensus.MedianRobust` | src/price/consensus.js:1-8 | When strictly more than half of the values lie in an interval, so does the median, for odd and even counts. |
| `Consensus.MedianExactly` | src/price/consensus.js:1-8 | However the values are put in ascending order, the median is the middle one or the mean of the two in the middle. |
| `Consensus.HalfIsNotEnough` | src/price/consensus.js:1-8 | Exactly half is not enough. |
| `Consensus.SortSound` | src/price/consensus.js:4 | The sorted list is ascending and holds the same values. |
| `Consensus.Partition` | src/price/consensus.js:41-48 | Agreeing points and outliers are together exactly the valid points. |
| `Consensus.GoodExactly` | src/price/consensus.js:23-27 | The points that count are those with an id and a positive price, as often as they occur. |
| `Consensus.SideExactly` | src/price/consensus.js:41-48 | A point agrees exactly when its price is within the bound of the median. |
| `Consensus.ConsensusExactly` | src/price/consensus.js:18-74 | There is consensus exactly when at least minAgree of the points that count are close to their median; the spread is that of the lowest and highest agreeing price. |
| `Consensus.SpreadBounded` | src/price/consensus.js:50-53 | With a deviation bound of d basis points the spread of agreeing prices is at most 2d / (10000 - d). |
| `Consensus.HonestMajority` | src/price/consensus.js:18-74 | A strict majority of honest valid points decides the reported median. |
| `Consensus.Split` | src/price/consensus.js:41-48 | The loop that sends each point to one side. |
| `Consensus.EvaluateConsensus` | src/price/consensus.js:18-74 | The evaluation with its error cases. |
| `PriceOracle.SnapshotExact` | src/price/oracle.js:94-165 | A snapshot is good exactly when every pair passes, and reports each pair by its last entry. |
| `PriceOracle.FeedGates` | src/price/oracle.js:123-138 | A pair passes exactly when enough providers are configured, enough sources answered and enough valid points agree. |
| `PriceOracle.ErrorExactly` | src/price/oracle.js:119-138 | Which error a pair reports, by its answers and the configured bounds alone. |
| `PriceOracle.OkPointsExactly` | src/price/oracle.js:119 | What a pair is judged by: the answers that succeeded, as they came. |
| `PriceOracle.GoodFeed` | src/price/oracle.js:115-158 | A good feed's median has at least minAgree valid sources close to it and cannot be moved out of an honest majority's interval. |
| `PriceOracle.CheckPair` | src/price/oracle.js:115-138 | The gates of one pair in order. |
| `PriceOracle.Tick` | src/price/oracle.js:94-165 | The loop over the pairs. |
| `FlagNegotiation.PaySettles` | src/ln/client.js:635-676 | Whatever flags the client's complaints mention, at most seven of the eight attempts reach a command it accepts; that one is run once and is the last. |
| `FlagNegotiation.PayBestExactly` | src/ln/client.js:626-676 | Against a client that supports any subset of the optional flags, the accepted command keeps every requested flag it supports, in its newest known spelling, exactly when each complaint on the way takes a branch whose flag is unsupported or not asked for. |
| `FlagNegotiation.PayRetryExact` | src/ln/client.js:639-674 | One retry gives up nothing useful exactly when the branch its complaint takes blames a useless flag, or, in the fallback, none is useful. |
| `FlagNegotiation.PayBestIs` | src/ln/client.js:596-630 | The best payment command gives every flag that is asked for in its newest supported spelling, and no other. |
| `FlagNegotiation.FirstTriesAll` | src/ln/client.js:496-630 | The first command gives all that is asked for, in the newest spelling. |
| `FlagNegotiation.PayKeepsBest` | src/ln/client.js:626-676 | So it does where complaints name some of the given flags the client does not know, and no others. |
| `FlagNegotiation.UsageTextLosesFeeLimit` | src/ln/client.js:642-662 | A complaint that also lists known flags can make a supported one disappear: a client lacking only the self-payment flag pays without the fee limit. |
| `FlagNegotiation.RoutesSettle` | src/ln/client.js:532-572 | Six of the ten attempts of queryroutes are enough. |
| `FlagNegotiation.RoutesBestExactly` | src/ln/client.js:498-572 | The same exact condition for queryroutes, where destination and amount are of use together only. |
| `FlagNegotiation.RoutesBestIs` | src/ln/client.js:496-530 | So does the best route query, with destination and amount by flag when both are supported. |
| `FlagNegotiation.GivesUpExactly` | src/ln/client.js:532-676 | A client that never stops complaining is tried eight times with a payment and ten with a query. |
| `FlagNegotiation.RoutesKeepBest` | src/ln/client.js:498-572 | The same preservation for queryroutes under precise complaints. |
| `FlagNegotiation.LnPay` | src/ln/client.js:626-676 | The pay retry loop makes exactly the specified attempts. |
| `FlagNegotiation.LnQueryRoutes` | src/ln/client.js:498-572 | So does the query loop. |
| `AtomicAmount.DecimalExact` | src/prompt/repair.js:67-112 | For int.frac with at most the allowed fraction digits the result N satisfies N * 10^f = (int frac) * 10^decimals; with more digits the text is left alone. |
| `AtomicAmount.AmountExactly` | src/prompt/repair.js:97-111 | A token that is no digit string is an amount exactly when it reads as a decimal with no more digits after the dot than allowed. |
| `AtomicAmount.NoiseIgnored` | src/prompt/repair.js:84-95 | White space around it, separators in it and words after it do not change an amount. |
| `AtomicAmount.NumeralFixed` | src/prompt/repair.js:92 | A digit string is already atomic and stays. |
| `ToolRepair.AtomicTwice` | src/prompt/repair.js:67-112 | Converting twice changes nothing more. |
| `ToolRepair.RepairTwice` | src/prompt/repair.js:166-250 | Repairing repaired offer_post arguments changes nothing. |
| `ToolRepair.FlattenedLands` | src/prompt/repair.js:186-216 | Every flattened key leaves the top level and lands in the first offer, an existing value under the same name winning; the other offers are kept exactly when the first one is an object. |
| `ToolRepair.MisspeltExactly` | src/prompt/repair.js:199-247 | A value the first offer holds under a misspelt name loses to the right name there or flattened; where neither is, it survives unless an earlier misspelling is there, which then survives. |
| `ToolRepair.OfferTwice` | src/prompt/repair.js:222-247 | Repairing a repaired offer changes nothing. |
| `ToolRepair.OfferKeeps` | src/prompt/repair.js:222-247 | A value under its right name survives all renames. |
| `ToolRepair.OfferKeepsExactly` | src/prompt/repair.js:214-247 | What becomes of a value under its right name, name by name. |
| `ToolRepair.WindowSpreads` | src/prompt/repair.js:230-234 | A single refund window gives both bounds where the offer has neither. |
| `ToolRepair.WindowStays` | src/prompt/repair.js:230-234 | Where it has one of them the window stays as it is. |
| `ToolRepair.TableExactly` | src/prompt/repair.js:219-229 | The renames are exactly those of the eleven misspellings, each to its right name. |
| `ToolRepair.OfferKeysExactly` | src/prompt/repair.js:177-192 | The fields that are lifted from the top level. |
| `ToolRepair.CoercesNumbers` | src/prompt/repair.js:5-14 | A safe integer written as a string becomes that number, whatever white space is around it. |
| `ToolRepair.KeepsTheRest` | src/prompt/repair.js:5-14 | Any other value is kept. |
| `ToolRepair.PreparedExactly` | src/prompt/repair.js:162-175 | What becomes of the times and the channels: times become numbers, a time to live displaces an absolute one, a lone channel becomes a list. |
| `AtomicAmount.Pow10BigInt` | src/prompt/repair.js:27-31 | The loop computes the power of ten. |
| `ToolRepair.Record.RenameKey` | src/prompt/repair.js:16-25 | A misspelt name gives way to the right one where both are present. |
| `ToolRepair.RepairOfferFields` | src/prompt/repair.js:222-247 | The renames, the refund window and the coercions of one offer, in order and in place. |
| `ToolRepair.LiftFlattened` | src/prompt/repair.js:186-216 | The loops that merge and delete flattened keys. |
| `ToolRepair.RepairOfferPostArguments` | src/prompt/repair.js:166-250 | The whole offer_post branch. |
| `Autopost.NumberedDistinct` | src/prompt/autopost.js:169-186 | After normalisation line indices are pairwise distinct and nothing else has changed. |
| `Autopost.NumberedExactly` | src/prompt/autopost.js:169-186 | Each line gets the index it asks for, unless a line before it has that; then the least free one from its own place on. |
| `Autopost.DistinctUnchanged` | src/prompt/autopost.js:169-186 | A list with distinct indices is left alone. |
| `Autopost.PruneExact` | src/prompt/autopost.js:215-233 | One pass drops exactly min(claimed, offered) lines of every trade key and none without a key. |
| `Autopost.PruneKeepsLast` | src/prompt/autopost.js:215-233 | The lines of a key that are dropped are its first ones. |
| `Autopost.PruneKeepsOrder` | src/prompt/autopost.js:215-233 | What is kept is a subsequence of the offers. |
| `Autopost.PruneKeepsLines` | src/prompt/autopost.js:169-233 | So every surviving line keeps its index for good. |
| `Autopost.RepeatedPruning` | src/prompt/autopost.js:192-233 | Claims are counted anew at every pass: r passes drop min(r * claimed, offered) lines. |
| `Autopost.CountsExact` | src/prompt/autopost.js:196-213 | The counter of a key is the number of its claimed trades of this maker since the start. |
| `Autopost.ExpiryNeverExtended` | src/prompt/autopost.js:122-268 | Every tool call of a job carries the expiry fixed at its start, at most seven days ahead, and is made only while the checked clock is before it. |
| `Autopost.StartExactly` | src/prompt/autopost.js:114-153 | A job starts exactly with an interval and a time to live in range and an expiry between ten seconds and seven days ahead, the given one or else now plus the time to live. |
| `Autopost.OfferPassExactly` | src/prompt/autopost.js:162-291 | One pass of an offer job: it only stops after the expiry; before, it numbers and prunes, stops where no line is left, and else posts exactly the remaining lines. |
| `Autopost.RfqPassExactly` | src/prompt/autopost.js:162-291 | One pass of an RFQ job. |
| `Autopost.NormalizeLines` | src/prompt/autopost.js:169-186 | The in-place normalisation loop. |
| `Autopost.CountClaims` | src/prompt/autopost.js:196-213 | The counting loop. |
| `Autopost.PruneOffers` | src/prompt/autopost.js:215-233 | The pruning loop. |
| `Autopost.Poster.Run` | src/prompt/autopost.js:162-300 | One pass of a job over its fields. |
| `SchemaCompact.Relaxes` | src/prompt/toolsCompact.js:14-62 | Every value valid under the full schema is valid under the compacted one, in every draft, on schemas without oneOf, without patternProperties beside additionalProperties, without prefixItems beside items where the draft knows it, and without a $ref where it overrides what stands beside it; a dropped `not` does no harm. |
| `SchemaCompact.CompactTwice` | src/prompt/toolsCompact.js:14-62 | Compaction is idempotent. |
| `SchemaCompact.CompactExactly` | src/prompt/toolsCompact.js:14-62 | What is kept as it is, what is compacted in its place, and what is dropped. |
| `SchemaCompact.LeanUnchanged` | src/prompt/toolsCompact.js:14-62 | A schema without the dropped keywords is left as it is. |
| `SchemaCompact.OneOfTightens` | src/prompt/toolsCompact.js:57-59 | Under oneOf compaction can refuse a value the full schema admits. |
| `SchemaCompact.PatternsTighten` | src/prompt/toolsCompact.js:20-40 | So it can where patternProperties is dropped beside additionalProperties. |
| `SchemaCompact.PrefixTightens` | src/prompt/toolsCompact.js:20-48 | So it can where prefixItems is dropped beside items. |
| `SchemaCompact.RefTightens` | src/prompt/toolsCompact.js:20-40 | So it can where a $ref is dropped that kept its neighbours from counting. |

## Left out

- Network, process, file, container and DHT plumbing, the SC-Bridge socket, and multiplexer session opening: input and output.
- The Solana settlement provider: same protocol shape as the TAO one.
- Signature, hash, Bech32 checksum and database internals: replaced by ideal predicates, parameters and maps.
- Language-model client, prompts, configuration loading, audit log and user interface.
- Trade automation, the RFQ bots, trade receipts other than listing locks, and the swap envelope state machine.
- Single-branch validators, HTTP headers, peer guards and redaction: they would add only easy members.
- SwapRuns: assumes an honest payer that uses the verified pay tool only; fees and the recovery tools are not modelled. The route and liquidity check before the payment is a parameter of the payment step.
- SwapRuns.RunKeeps: gas, and value sent to the contract outside lock, are not modelled.
- StableStringify: numbers are integers that print without an exponent; fractions are not modelled.
- ListingLocks: invites for quotes without an offer line take no lock and are not followed; the dry-run branches and the checks before the lock are one arbitrary refusal. A failure after the post of a quote_accept stands for anything that throws between the send and the return.
- EventLog: filters are pure functions that may throw; promise scheduling between a wake-up and its reader is not modelled.
- EscrowGate: message fields are taken as trimmed and lower-cased, the way the scans read them.
- Gossip: one id, peers that never forget it, and one connection per neighbour.
- Gossip.EveryoneHears: with a smaller time to live only the upper bound on hops holds, since the first copy to arrive may have travelled the longer way.
- JsonScanner: JSON.parse is a parameter; characters stand for UTF-16 code units outside the basic plane too.
- Bolt11: the Bech32 checksum and the signature itself are not decoded, and the sum of timestamp and expiry is exact also beyond 2^53, where the source would round.
- Bolt11.HrpRoundTrip: regular expressions are read as digits followed by at most one multiplier letter.
- ProofOfWork.AttachPow: does not show that the search ends, because that depends on the hash; the bound is a hypothesis.
- FlagNegotiation: a flag kept in a configuration after it has been given up is represented as dropped, which no later branch can tell apart.
- ToolRepair: integers at or beyond 10^21, which JavaScript prints with an exponent, count as other numbers; toFixed is whatever text it returns. The other tools' branches and the job names are not modelled.
- Autopost: job names, timers and the queue of pending passes are not modelled; passes may come at any time, also after the job stopped. The trade key is given with each entry.
- SchemaCompact.Relaxes: its condition is sufficient; whether one particular oneOf, prefixItems, $ref or patternProperties tightens depends on which values its branches admit.
- SchemaCompact: a $ref inside a copied additionalProperties is taken to mean what it meant before, although the definitions it may point to are dropped.
- SchemaCompact: keyword values of the wrong JSON type are not representable, and descriptions are dropped as by default. The minimal and names-only profiles are not modelled.
