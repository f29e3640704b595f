# Verified model of the ARES framework and its energy-auction demo

This Dafny project models the parts of the repository whose correctness is hardest to see by reading, and
proves what they promise for every input, every run or every reachable state. Each `.dfy` file is one module; `Wrappers`, `Sequences` and `Reals` are shared helpers.

| area | modules | main results |
|---|---|---|
| Uniform-price pool clearing | `Grid`, `Clearing`, `Comparator`, `Circuit` | the slot-packed circuit refines the plaintext oracle; rationing is exact |
| Energy-auction relay | `AuctionState`, `AuctionRuns`, `BidRuns`, `EpochRuns`, `Auction`, `Hub`, `Ledger`, `Argmax` | what every run keeps about seats, bids, keys, offers and the N-of-N audit; which bids are taken and which completes a round; what the books come to in every run; the highest bidder wins |
| Swift manifest scanner | `SwiftScanner`, `SwiftGrammar`, `SwiftCalls` | stripping agrees with a grammar of literals and nested comments, and is idempotent; call extraction is sound and complete |
| Wire frames | `Decimals`, `JsonGrammar`, `WSFrame`, `WSFrameScanner`, `JsonStrict` | a payload comes back byte for byte; which frames are JSON |
| Phase runner | `Pipeline`, `Runner`, `RunnerRuns` | hook order, when and how far a message moves a session, termination, which states can be reached |
| Lineage | `Lineage`, `Store`, `RunnerLineage` | injective encodings, commit verifies, the store's two indexes are one log, the DAG is acyclic and every node in it genuine |
| Key combine | `Combine`, `NativeHandles` | lazy per-index combining equals the all-at-once fold; no handle leaks; at most three are live |
| Onion shuffle | `Permutation`, `Onion` | a bijective, unbiased shuffle; layered build and peel round trip |
| Rate limiter | `RateLimit` | a bound on every stretch of calls; a burst admits exactly the whole tokens |

## How the model is built

* Operations that change state are methods of a class (`Auction`, `Hub`, `SessionRunner`, `LineageRunner`,
  `InMemoryStore`, `SeedStream`, `RateLimiter`, the native `Heap`). Each is proved equal to a function on values,
  and the lemmas about whole runs speak of those functions. Scanners and encoders are loops proved against
  recursive functions.
* Every relay operation runs under one mutex, so a run is a sequence of operations in any order. The struct's
  fields are grouped into two records, the round and the epoch.
* `float64` is `real`; integer widths are written out where they matter (32-bit length prefixes, 32-bit sampling
  words, the 64-bit stream counter). Byte strings are sequences of bytes, or strings whose characters stand for bytes.
* SHA-256, signatures, ECIES, homomorphic evaluation, the native key library, JSON string decoding, clocks and
  randomness are parameters: functions with the laws each lemma names. The homomorphic operations are exact
  vector operations; the native fold acts on each rotation index alone.
* Phase hooks are functions on a context of any type, so the runner results hold for hooks of any kind. The runner
  records the hook calls it makes in the session, so that their order can be stated.
* Map iteration order is arbitrary in the source. Where it could matter it is a parameter.

## Where the code and its documentation differ

The model follows the code. The differences are stated as lemmas:

* `Comparator.EvenReadsRightIff`: the comparator is said to cross one half at zero "for any gain". Degrees that keep an
  odd number of series terms, 13 among them, do so for every gain and every input (`Comparator.OddReadsRight`). The
  others (3, 4, 7, 8, 11 and 12) do so exactly up to a threshold; `Comparator.EvenMiss` is an input beyond it.
* `Grid.SupplyMatchesDocumentation`, `Grid.DemandMatchesDocumentation`: an offer just beyond a bucket's price is let in
  by the tick tolerance; `Grid.SupplyDeparts` and `Grid.DemandDeparts` are such offers.
* `Clearing.NoClearingMeans`: a slot that reports no clearing can still have a tradable bucket below the crossing.
* `Combine.IncrementalIsAllAtOnce`, `Combine.PerIndexIsAllAtOnce`, `NativeHandles.LazyIsAllAtOnce`: none of these
  combines reads the lead's public key, so each succeeds where the all-at-once combine refuses a malformed one;
  `Combine.LeadKeyGoesUnread` is such an input.
* `Ledger.BooksBalance`: an accepted settle can be refused at the relay after the seller has booked it;
  `Ledger.RefusalUnbalances` is a run in which the audit is out by the price.
* `RunnerRuns.CascadeEndsIff`: Compose accepts a last phase whose exit state leads nowhere or back; such a pipeline of
  pure-compute phases never ends its cascade (`RunnerRuns.LoosePipelineIsAccepted`).
* `Pipeline.LookupFindsItIff`: pkg/ares/phase/phase.go:58-62 says that a state lookup takes entry and internal states as inside
  their phase. Compose lets a later phase enter a state that an earlier one declares internal, and the lookup then answers
  with the later one; `Pipeline.ClashIsAccepted` is such a list.
* `RateLimit.NeverRefusedIff`: a positive burst below one token admits nothing at all.
* `Onion.RunUnshuffled`: a forwarded batch is described as shuffled (pkg/ares/phase/anon/states.go:36), but
  `PeelBatch` keeps the input order; forwarded as returned, the payloads end in participant order.
* `RunnerLineage.AppendOrderIff`: pkg/ares/lineage/verify.go:21-23 says that appending to the store checks parent
  references. It does not, the runner does; `RunnerLineage.OrphanBreaksOrder` is an append that breaks the order.
* `JsonStrict.FrameIsJsonIff`: the encoder escapes quotes and backslashes only, so a control byte in a frame's type or
  session id yields a text that is not JSON (`JsonStrict.NewlineIsNotJson`).

## Model

| member | source | states |
|---|---|---|
| `Grid.IndexUnpack` | pkg/ares/pool/grid.go:45 | packing a (slot, bucket) pair into a position loses nothing |
| `Grid.ValidateOffers` | pkg/ares/pool/grid.go:56-72 | accepts exactly a valid grid with in-range, non-negative offers, and otherwise names the first bad offer |
| `Grid.EncodeSupply` | pkg/ares/pool/grid.go:76-92 | every position of the curve is the sum of the quantities on sale at that slot and price; refused exactly when the offers are invalid |
| `Grid.EncodeDemand` | pkg/ares/pool/grid.go:96-112 | every position of the curve is the sum of the quantities wanted at that slot and price; refused exactly when the offers are invalid |
| `Grid.SlotBoundaryMask` | pkg/ares/pool/grid.go:121-130 | zero exactly at each slot's first bucket |
| `Grid.SupplyAdditive` | pkg/ares/pool/grid.go:76-92 | supply curves add over concatenated offer lists |
| `Grid.DemandAdditive` | pkg/ares/pool/grid.go:96-112 | demand curves add over concatenated offer lists |
| `Grid.SupplyMonotone` | pkg/ares/pool/clearing.go:36-37 | supply is non-negative and never falls with the price |
| `Grid.DemandMonotone` | pkg/ares/pool/clearing.go:36-37 | demand is non-negative and never rises with the price |
| `Grid.SplitDoesNotMatter` | pkg/ares/pool/circuit_openfhe.go:14-20 | the aggregate curves depend on the multiset of offers, not on which participant holds which |
| `Grid.SupplyMatchesDocumentation` | pkg/ares/pool/grid.go:74-75 | the curve is never below the documented one, and equals it if and only if no bid sits within the tolerance above the bucket |
| `Grid.SupplyDeparts` | pkg/ares/pool/grid.go:74-92 | in every bucket of every valid grid, an offer half a tolerance above the price is on sale in the code and not in the documentation |
| `Grid.DemandMatchesDocumentation` | pkg/ares/pool/grid.go:94-95 | the demand curve is never below the documented one, and equals it if and only if no limit sits within the tolerance below the bucket |
| `Grid.DemandDeparts` | pkg/ares/pool/grid.go:94-112 | in every bucket of every valid grid, a limit half a tolerance below the price counts in the code and not in the documentation |
| `Clearing.ClearSlot` | pkg/ares/pool/clearing.go:56-80 | the loop returns the outcome at the first bucket from 1 on where supply meets demand, or no clearing |
| `Clearing.ClearPlaintext` | pkg/ares/pool/clearing.go:38-54 | one outcome per slot; refused exactly for a bad grid or wrong lengths |
| `Clearing.EncodedCurvesAreMonotone` | pkg/ares/pool/clearing.go:36-37 | curves the encoders produce satisfy the monotonicity the clearing relies on |
| `Clearing.CrossingIsUnique` | pkg/ares/pool/clearing.go:36-37 | supply meets demand from the crossing on and nowhere before it |
| `Clearing.ClearingIsExact` | pkg/ares/pool/clearing.go:89-126 | infra * S_prev + marginal * (S - S_prev) = cleared = demand > 0, ratios in [0,1], and the marginal tranche is used only when cheaper sellers are served in full |
| `Clearing.ClearingServesOffers` | pkg/ares/pool/clearing.go:56-126 | in terms of the offers: the price is tick times the bucket, all that is wanted there is cleared out of what is on sale there, and the cheaper sellers are those on sale one bucket lower |
| `Clearing.NoBucketTradesMore` | pkg/ares/pool/clearing.go:56-126 | no bucket from 1 on could trade more than the larger of what was cleared and the supply one bucket lower |
| `Clearing.NoClearingMeans` | pkg/ares/pool/clearing.go:95-107 | without a clearing nothing at or above the crossing trades, and nothing at all trades if and only if the bucket below the crossing has no supply |
| `Clearing.NoClearingCanMissATrade` | pkg/ares/pool/clearing.go:95-107 | a slot that reports no clearing while five units could trade one bucket lower |
| `Clearing.AggregateOneMore` | pkg/ares/pool/circuit_openfhe.go:14-20 | adding a participant's encoded vectors to the aggregates gives the aggregates with that participant |
| `Clearing.ClearingIgnoresSplit` | pkg/ares/pool/circuit_openfhe.go:14-20 | the clearing is the same for every way of splitting the same offers among participants |
| `Comparator.EvalPolyAt` | pkg/ares/pool/circuit_openfhe.go:409-415 | Horner's loop computes the sum of powers |
| `Comparator.LogisticCoeffs` | pkg/ares/pool/circuit_openfhe.go:67-84 | the loop fills exactly the odd coefficients of the shifted, scaled tanh series and one half |
| `Comparator.LogisticIsOdd` | pkg/ares/pool/circuit_openfhe.go:60-66 | p(x) + p(-x) = 1 for every degree and gain |
| `Comparator.LogisticSeparates` | pkg/ares/pool/circuit_openfhe.go:60-84 | with an odd number of series terms for every input, and otherwise up to 2 after gain, p is on the right side of one half by at least a sixth of the gained input |
| `Comparator.LogisticFactors` | pkg/ares/pool/circuit_openfhe.go:60-84 | for every degree, gain and input, p is one half plus half of z times an even polynomial in z, where z is half the gained input |
| `Comparator.OddReadsRight` | pkg/ares/pool/circuit_openfhe.go:222-228 | degrees that keep an odd number of terms read the sign of every input right, for every positive gain |
| `Comparator.EvenReadsRightIff` | pkg/ares/pool/circuit_openfhe.go:222-228 | the other degrees read an input right if and only if the square of half the gained input is within the degree's threshold |
| `Comparator.EvenReadsRightWithin` | pkg/ares/pool/circuit_openfhe.go:222-228 | any bound below the threshold decides the inputs within it, any bound above it those beyond |
| `Comparator.ThresholdWithin` | pkg/ares/pool/circuit_openfhe.go:222-228 | a degree has at most one threshold, it lies between 1 and 4, and bisection brackets it to any precision |
| `Comparator.CubicThreshold` | pkg/ares/pool/circuit_openfhe.go:222-228 | the threshold of degrees 3 and 4 is 3 |
| `Comparator.EvenMiss` | pkg/ares/pool/circuit_openfhe.go:222-228 | with gain 4, input 1 reads below one half at every degree with an even number of terms |
| `Circuit.OutputsInClosedForm` | pkg/ares/pool/circuit_openfhe.go:105-208 | subtract, scale, polynomial, rotate, difference, mask and multiply give this closed form at every packed position, for any batch size |
| `Circuit.SlotsDoNotLeak` | pkg/ares/pool/circuit_openfhe.go:156-175 | the rotation's wrap never leaks: a slot's outputs depend on that slot's inputs alone |
| `Circuit.DecodeCrossing` | pkg/ares/pool/circuit_openfhe.go:231-243 | per slot, the first bucket from 1 on within tolerance of one half |
| `Circuit.DecodeClearing` | pkg/ares/pool/circuit_openfhe.go:292-322 | per slot, the outcome read by dividing out the bump, or only the price below the threshold |
| `Circuit.CircuitRefinesOracle` | pkg/ares/pool/circuit_openfhe.go:105-322 | if the comparator separates the signs that occur, a slot decodes to exactly its plaintext clearing if and only if it has no crossing or its bump reaches the threshold; below it the bucket and price are still right |
| `Circuit.LogisticMeetsHypothesis` | pkg/ares/pool/circuit_openfhe.go:60-84 | the logistic comparator of any degree and positive gain separates the signs that occur: any excess for an odd number of terms, excess up to 2 after gain otherwise, as long as no shortfall is vanishing |
| `Circuit.LogisticCircuitIsExact` | pkg/ares/pool/circuit_openfhe.go:67-322 | with that comparator a slot decodes to its plaintext clearing if and only if it has no crossing or its bump reaches the threshold |
| `Circuit.Degree13IsReadable` | pkg/ares/pool/circuit_openfhe.go:60-84 | at degree 13 only a vanishing shortfall is outside the range, whatever the gain |
| `Circuit.Expected` | pkg/ares/pool/circuit_openfhe.go:368-392 | the nested loops compute the masked supply at every position |
| `Circuit.ExpectedIsSupplyAt` | pkg/ares/pool/circuit_openfhe.go:355-408 | the calibration ground truth equals the circuit's supply output everywhere |
| `Auction.Auction.Join` | examples/energy_auction/auction.go:147-164 | one Join step: seller first, then up to five buyers seated by count, then observers |
| `Auction.Auction.Leave` | examples/energy_auction/auction.go:166-197 | one Leave step: resets the round for a seller or sealed bidder and aborts the audit for a frozen party |
| `Auction.Auction.FindSeller` | examples/energy_auction/auction.go:199-206 | finds a seller exactly when there is one |
| `Auction.Auction.BuyerCount` | examples/energy_auction/auction.go:208-216 | counts the buyers |
| `Auction.Auction.Evaluator` | examples/energy_auction/auction.go:221-228 | the first buyer in join order |
| `Auction.Auction.PeerAtSeat` | examples/energy_auction/auction.go:582-591 | some buyer in the seat, and nobody only when the seat is empty |
| `Auction.Auction.ResetLocked` | examples/energy_auction/auction.go:230-241 | clears the round and unseals everyone, keeping the key id |
| `Auction.Auction.SetHour` | examples/energy_auction/auction.go:249-254 | the hour modulo 24 for negative hours too, and a round reset |
| `Auction.Auction.PublishKeys` | examples/energy_auction/auction.go:258-270 | a new key id with no bid left from the one before |
| `Auction.Auction.SubmitBid` | examples/energy_auction/auction.go:293-310 | one bid step and its three-way reply |
| `Auction.Auction.OrderedBids` | examples/energy_auction/auction.go:314-326 | the stored ciphertexts with their seats in seat order |
| `Auction.Auction.Settle` | examples/energy_auction/auction.go:349-378 | logs the trade, moves the hour, ends the round, readies the epoch at five trades, and returns the seat |
| `Auction.Auction.StartEpochChain` | examples/energy_auction/auction.go:382-402 | freezes the join order unless an audit is running |
| `Auction.Auction.AdvanceEpochChain` | examples/energy_auction/auction.go:407-416 | one step of the key chain and whom it goes to |
| `Auction.Auction.SubmitEpochPartial` | examples/energy_auction/auction.go:428-433 | stores a share and reports whether all of the party have sent one |
| `Auction.Auction.SubmitEpochTotal` | examples/energy_auction/auction.go:450-458 | stores a total during an audit and reports whether all of the party have sent one |
| `Auction.Auction.HaveAllLocked` | examples/energy_auction/auction.go:461-468 | true exactly when the party is not empty and all of it is present |
| `Auction.Auction.EpochPartials` | examples/energy_auction/auction.go:436-446 | the party's shares in party order |
| `Auction.Auction.EpochCiphertexts` | examples/energy_auction/auction.go:472-482 | the party's totals in party order |
| `AuctionRuns.RunKeepsInv` | examples/energy_auction/auction.go:147-512 | in every reachable state the keys of the bid map are exactly the sealed buyers' seats, there is at most one seller and five buyers, the join order lists each peer once, an audited party is duplicate-free and connected, and an open epoch has fewer than five trades |
| `AuctionRuns.BidsWereSubmitted` | examples/energy_auction/auction.go:258-310 | every stored ciphertext was submitted, under the current key id, by the sealed buyer still in that seat |
| `AuctionRuns.StaleBidsAreRefused` | examples/energy_auction/auction.go:272-303 | once a new key has been published, a bid naming any earlier key is rejected and changes nothing |
| `AuctionRuns.BidCompletes` | examples/energy_auction/auction.go:293-310 | a bid completes the round if and only if it is accepted, every buyer has sealed and no two share a seat |
| `BidRuns.OpenRoundTakesBids` | examples/energy_auction/auction.go:258-310 | from published keys until a bid completes the round, whatever else is bid, joined or audited, a bid is stored and its sender sealed if and only if it comes from a connected buyer under the key just published; any other is rejected and changes nothing |
| `BidRuns.LastBidCompletes` | examples/energy_auction/auction.go:293-310 | when no two buyers share a seat and each bids once under the published key, in any order, every bid but the last is answered stored and the last complete |
| `BidRuns.NoBidsUntilKeys` | examples/energy_auction/auction.go:230-310 | before the first keys, and after a completed round, masks, an offer, a settled trade, a reset, a new hour or epoch or a departure that ends the round, every bid is rejected and changes nothing until keys are published |
| `BidRuns.DepartureEndsRoundIff` | examples/energy_auction/auction.go:166-197 | a departure clears the round and unseals everyone if it is the seller's or a sealed bidder's, and otherwise leaves the round and everyone else alone |
| `AuctionRuns.CompleteRoundIsListed` | examples/energy_auction/auction.go:314-326 | then the ordered list has one entry per buyer, strictly by seat, naming exactly the occupied seats |
| `AuctionRuns.SeatsCanCollide` | examples/energy_auction/auction.go:155-157 | after a lower-seated buyer leaves, the next one is given the top buyer's seat |
| `BidRuns.SeatsWithoutDepartures` | examples/energy_auction/auction.go:147-164 | in every run without departures the first to join is the seller, the next five are buyers in seats 0 to 4 and the others observers, so no two buyers share a seat |
| `EpochRuns.EachTradeUsesItsOwnOffer` | examples/energy_auction/auction.go:336-378 | between two settled trades there is an offer, and the second trade goes on top of the log with that offer's seat and price, the hour and the answer given |
| `EpochRuns.RunKeepsSlots` | examples/energy_auction/auction.go:366-368 | without SetHour, consecutive trades have consecutive slots modulo 24 |
| `EpochRuns.ReadyOnlyAtFive` | examples/energy_auction/auction.go:183-402 | in every run an epoch is ready for its audit only with five trades or after an audit broke off, and one that is open has fewer than five |
| `EpochRuns.StartFreezesParty` | examples/energy_auction/auction.go:382-402 | starting an audit freezes exactly the connected peers, each once, with nothing collected |
| `EpochRuns.AuditPartyConnected` | examples/energy_auction/auction.go:118-127 | while the audit lasts its party is unchanged, duplicate-free and fully connected, whatever else happens |
| `EpochRuns.ChainVisitsParty` | examples/energy_auction/auction.go:407-416 | interleaved with anything, the k-th contribution is answered with party member k, and with done from the n-th on |
| `EpochRuns.TotalsComplete` | examples/energy_auction/auction.go:450-482 | totals are reported complete if and only if every frozen party has sent one, and the list then holds each one's last total in party order |
| `EpochRuns.PartialsComplete` | examples/energy_auction/auction.go:428-468 | during an audit, decryption shares are reported complete if and only if every frozen party has sent one, and the list then holds each one's last share in party order |
| `EpochRuns.PartialsReported` | examples/energy_auction/auction.go:428-446 | in every state, also after the audit is closed, the reply is complete if and only if every frozen party has a share in the table, and the list then holds one from each in party order |
| `EpochRuns.PartialsWereSubmitted` | examples/energy_auction/auction.go:428-433 | in every run each share in the table was submitted by the party it is listed under |
| `EpochRuns.DepartureAborts` | examples/energy_auction/auction.go:183-196 | a departing party ends the audit and empties it |
| `EpochRuns.NothingCompletesUntilRestart` | examples/energy_auction/auction.go:183-196 | after that nothing is reported complete until an audit is started again |
| `Hub.Hub.Connect` | examples/energy_auction/main.go:105-119 | a connection id is never reused, so the relay's invariant survives every join |
| `Hub.Hub.Disconnect` | examples/energy_auction/main.go:121-134 | the connection and the peer go together |
| `Hub.Hub.Handle` | examples/energy_auction/main.go:145-322 | each message is one relay step; ciphertext work and its key go only to a buyer, masks only to the seller, a win to exactly one buyer in the winning seat, a chain step only to the party member the relay names; broadcasts reach every connection, and a completed round always reaches an evaluator |
| `Ledger.EventKeepsBooks` | examples/energy_auction/main.go:145-322 | every event, from any tab and at any time, keeps the sum of what the tabs' nets will be, buyers minus seller, equal to the unbooked settles minus the refused ones minus the booked ones on their way |
| `Ledger.BooksBalance` | examples/energy_auction/e2e/auction_e2e.js:112-118 | after any run without departures, over any number of epochs, once nothing is in flight the reported positions sum to this epoch's unbooked minus refused settles; with every settle booked at a positive price they balance if and only if none was refused |
| `Ledger.OneLiarIsVisible` | examples/energy_auction/e2e/auction_e2e.js:9-10 | one tab's misreport shifts that sum by exactly the difference, so in balanced books it shows if and only if the claim is false |
| `Ledger.SettleIsServedIff` | examples/energy_auction/main.go:222-229 | in every run a booked settle reaches a buyer other than the seller if and only if an offer to a taken seat stands when it arrives |
| `Ledger.OfferFallsIff` | examples/energy_auction/auction.go:230-378 | a standing offer survives an operation if and only if it is none of reset, hour, keys, settle, new epoch and offer, or is an offer to a taken seat |
| `Ledger.UndisturbedSettleIsServed` | examples/energy_auction/main.go:218-229 | from a standing offer, in any run without those operations, the settle is served |
| `Ledger.RefusalUnbalances` | examples/energy_auction/main.go:222-229 | a run in which a reset overtakes a booked settle and the audit is out by its price |
| `Ledger.BookingBeforeResetIsLost` | examples/energy_auction/e2e/auction_e2e.js:256-261 | an amount booked before the tab's own reset arrives is lost, which is why the driver waits |
| `Argmax.LowerBidLoses` | examples/energy_auction/wasm/pool_wasm.cpp:162-187 | a strictly lower bid's mask is strictly smaller than a highest bid's and at most one half |
| `Argmax.BalancedProduct` | pkg/ares/crypto/cgo/openfhe_wrapper.cpp:1668-1681 | the pairing loops multiply what a sequential chain would |
| `Argmax.EvalArgmax` | pkg/ares/crypto/cgo/openfhe_wrapper.cpp:1620-1683 | the masks, each the product of the comparators against every other bid; fewer than two bids are refused |
| `Argmax.IndexOfMax` | examples/energy_auction/e2e/auction_e2e.js:94-96 | the first maximum |
| `Argmax.HighestBidWins` | examples/energy_auction/e2e/auction_e2e.js:85-103 | for any number of bids in [0,1] the first maximal mask is at a highest bid, and is at least (1/2)^(n-1) |
| `Argmax.HighestBidderWins` | examples/energy_auction/e2e/auction_e2e.js:94-103 | when a bid completes the round, the seat the seller reads off the masks is held by exactly one buyer, who bid at least as much as every other |
| `Argmax.TiesGoToTheFirst` | examples/energy_auction/e2e/auction_e2e.js:94-96 | among equal highest bids the lowest position wins |
| `SwiftScanner.SwiftStringEnd` | internal/releasebundle/swiftmanifest.go:228-276 | the loops find the literal at a position: ordinary, raw with matching hashes, none, or refused |
| `SwiftScanner.StripSwiftComments` | internal/releasebundle/swiftmanifest.go:167-222 | the depth-counting loop blanks whole comments and copies every other piece, or fails exactly on malformed text |
| `SwiftScanner.StripOnlyBlanks` | internal/releasebundle/swiftmanifest.go:162-222 | length and newlines are kept, and a byte that changes becomes a space |
| `SwiftScanner.UnchangedIffCommentFree` | internal/releasebundle/swiftmanifest.go:162-222 | stripping leaves a text alone if and only if it has no comment and nothing malformed |
| `SwiftScanner.StripIsIdempotent` | internal/releasebundle/swiftmanifest.go:162-222 | the output has no comment and strips to itself |
| `SwiftGrammar.TokenIsRead` | internal/releasebundle/swiftmanifest.go:167-276 | wherever a literal with its escapes, a raw literal, a line comment, a tree of nested comments or a plain character stands, the scanner finds exactly that token |
| `SwiftGrammar.BodyOf` | internal/releasebundle/swiftmanifest.go:173-207 | every block comment the scanner closes is a tree of properly nested comments, up to its own closing mark |
| `SwiftGrammar.StripIsExact` | internal/releasebundle/swiftmanifest.go:162-276 | stripping succeeds if and only if the text is a sequence of such tokens, and for every way to read it so the result is the text with its comments blanked |
| `SwiftCalls.SwiftBalancedCallEnd` | internal/releasebundle/swiftmanifest.go:138-160 | the loop finds the parenthesis that closes the call |
| `SwiftCalls.BalancedEndIsBalanced` | internal/releasebundle/swiftmanifest.go:138-160 | parentheses outside literals balance there and nowhere earlier |
| `SwiftCalls.CallOpensIff` | internal/releasebundle/swiftmanifest.go:104-136 | arguments start at a position if and only if it follows the token, blanks of the four kinds and a parenthesis |
| `SwiftCalls.SwiftCallsOf` | internal/releasebundle/swiftmanifest.go:104-136 | the loop returns the calls in order, or fails exactly on a refused literal or an unclosed call |
| `SwiftCalls.CallsAreCalls` | internal/releasebundle/swiftmanifest.go:104-136 | for any token every returned range is a token call with balanced arguments, and ranges are ordered and disjoint |
| `SwiftCalls.CallsAreSound` | internal/releasebundle/swiftmanifest.go:104-136 | for a token without quotes and hashes, as both callers pass, every returned range is also outside the literals the scan steps over |
| `SwiftCalls.CallsAreComplete` | internal/releasebundle/swiftmanifest.go:104-136 | for such a token every call outside literals is returned or lies inside a returned one |
| `WSFrame.ValueIsSkipped` | clients/swift/Sources/AresTransport/WSFrame.swift:101-207 | for every well-formed JSON value followed by a delimiter, skipping stops exactly at its end |
| `WSFrame.ExtractIsExact` | clients/swift/Sources/AresTransport/WSFrame.swift:64-99 | on every well-formed object the result is the last member of that name, byte for byte, with null as absent |
| `WSFrame.WhiteSpaceIsIgnored` | clients/swift/Sources/AresTransport/WSFrame.swift:64-99 | any runs of the four bytes of section 2 of RFC 8259 between the tokens of an object leave the extracted value as it is |
| `WSFrame.OtherBytesAreNotSkipped` | clients/swift/Sources/AresTransport/WSFrame.swift:217-226 | no other byte is skipped: where a name is due, anything but a quote or a brace extracts nothing |
| `WSFrame.FrameIsObject` | clients/swift/Sources/AresTransport/WSFrame.swift:29-43 | the encoder writes the text of an object with exactly its fields, in a grammar whose strings may hold control bytes |
| `JsonStrict.TextIsJsonIff` | clients/swift/Sources/AresTransport/WSFrame.swift:29-43 | a text of that grammar is JSON, however it is parsed, if and only if no string in its tree holds a bare control byte |
| `JsonStrict.FrameIsJsonIff` | clients/swift/Sources/AresTransport/WSFrame.swift:29-43 | the frame is JSON if and only if type and session id hold no byte below 0x20 and payload and lineage are JSON |
| `JsonStrict.NewlineIsNotJson` | clients/swift/Sources/AresTransport/WSFrame.swift:29-43 | a newline in the session id makes the frame no JSON text |
| `WSFrame.PayloadSurvives` | clients/swift/Sources/AresTransport/WSFrame.swift:29-99 | extracting the payload from any encoded frame returns it verbatim |
| `WSFrameScanner.SkipStringAt` | clients/swift/Sources/AresTransport/WSFrame.swift:183-207 | the cursor loop skips a string, including a cursor that runs past the end |
| `WSFrameScanner.SkipValueAt` | clients/swift/Sources/AresTransport/WSFrame.swift:101-123 | the cursor scan leaves what skipping a value leaves |
| `WSFrameScanner.SkipObjectAt` | clients/swift/Sources/AresTransport/WSFrame.swift:125-152 | the same for objects |
| `WSFrameScanner.SkipArrayAt` | clients/swift/Sources/AresTransport/WSFrame.swift:154-173 | the same for arrays |
| `WSFrameScanner.ExtractAt` | clients/swift/Sources/AresTransport/WSFrame.swift:64-99 | the cursor loop computes the extraction |
| `Pipeline.CheckConstraints` | pkg/ares/phase/runner.go:206-248 | accepts exactly when every named minimum and every other constraint holds |
| `Pipeline.ValidateRequires` | pkg/ares/phase/runner.go:184-202 | accepts exactly when every required key is provided with a fitting type and constraints |
| `Pipeline.Compose` | pkg/ares/phase/runner.go:106-182 | accepts exactly the well-formed phase lists and derives their state tables |
| `Pipeline.RequiredHasProvider` | pkg/ares/phase/runner.go:132-137 | every required key has an earlier provider, and the latest one fits it |
| `Pipeline.MinimumMeans` | pkg/ares/phase/runner.go:206-248 | a constraint k_min is met if and only if the producer gives a number k at least as large |
| `Pipeline.EqualityMeans` | pkg/ares/phase/runner.go:206-248 | any other named constraint is met if and only if the producer gives that name a value that prints alike |
| `Pipeline.OwnerClaims` | pkg/ares/phase/runner.go:288-300 | a state lookup answers with a phase that claims the state, and with none only if no phase does |
| `Pipeline.LookupFindsItIff` | pkg/ares/phase/runner.go:288-300 | it answers with a given claiming phase if and only if no later phase enters a state which that phase declares internal |
| `Pipeline.ClashIsAccepted` | pkg/ares/phase/runner.go:140-163 | a two-phase list that Compose accepts although both phases claim a state |
| `Runner.SessionRunner.BeginSession` | pkg/ares/phase/runner.go:324-368 | starts a session inside the first inline phase exactly when the id is new and not empty and that phase can be entered; otherwise nothing changes |
| `Runner.SessionRunner.Advance` | pkg/ares/phase/runner.go:416-463 | the loop computes the cascade of exit, commit and enter |
| `Runner.SessionRunner.HandleMessage` | pkg/ares/phase/runner.go:387-406 | one message to the current phase, then the cascade if it completes |
| `Runner.SessionRunner.AdvanceToState` | pkg/ares/phase/runner.go:494-559 | the loop walks on until the target state |
| `Runner.SessionRunner.EndSession` | pkg/ares/phase/runner.go:564-568 | drops that session only |
| `RunnerRuns.ActInOrder` | pkg/ares/phase/runner.go:387-559 | from inside a phase only a failing hook, an unconsumed message or an unreachable target is refused: the hop limit and unclaimed states cannot occur |
| `RunnerRuns.HooksRunInOrder` | pkg/ares/phase/runner.go:106-463 | every error-free run calls the hooks as Enter, OnMessage*, Exit in list order, none twice and none skipped |
| `RunnerRuns.ExitedIffComplete` | pkg/ares/phase/runner.go:387-406 | a consumed message is given to its phase, which is exited if and only if OnMessage succeeds and the phase is complete on the context it returns; otherwise only that context changes |
| `RunnerRuns.UnconsumedChangesNothing` | pkg/ares/phase/runner.go:387-406 | a message of another type is refused and changes nothing |
| `RunnerRuns.CascadeStops` | pkg/ares/phase/runner.go:416-463 | a cascade ends in the first phase it enters that takes messages or is incomplete, or past the last phase, having passed only complete phases that take none |
| `RunnerRuns.BeginEntersOnly` | pkg/ares/phase/runner.go:324-368 | beginning a session calls exactly the Enter of the first inline phase and stops there, even if it is complete |
| `RunnerRuns.AdvanceSucceedsIff` | pkg/ares/phase/runner.go:494-559 | never rewinds, and succeeds if and only if the target is the current state, an internal state of the phase or the entry state of a later inline phase |
| `RunnerRuns.CascadeEndsIff` | pkg/ares/phase/runner.go:416-463 | a pipeline of pure-compute phases ends if and only if its last inline phase exits to no state |
| `RunnerRuns.LoosePipelineIsAccepted` | pkg/ares/phase/runner.go:99-101 | a one-phase pipeline is well-formed with any exit state, and its cascade ends only if that state is the empty one |
| `Lineage.HashInputReadsBack` | pkg/ares/lineage/node.go:203-239 | the bytes fed to the node hash are the documented format: a reader of length-prefixed session, phase, role and payload hash, then a count and references of 32 bytes, gets every field back |
| `Lineage.SigningMessageReadsBack` | pkg/ares/lineage/node.go:246-263 | the signed bytes are the hash and the length-prefixed session, phase and role, which a reader gets back |
| `Lineage.HashInputIsInjective` | pkg/ares/lineage/node.go:203-239 | the bytes fed to the node hash determine session, phase, role, payload hash and parents |
| `Lineage.SigningMessageIsInjective` | pkg/ares/lineage/node.go:246-263 | the bytes fed to the signer determine hash, session, phase and role |
| `Lineage.SortParents` | pkg/ares/lineage/node.go:269-294 | the stable sort of the parents with their roles, missing roles empty |
| `Lineage.SortSorts` | pkg/ares/lineage/node.go:265-294 | sorted, and a permutation |
| `Lineage.SortIsStable` | pkg/ares/lineage/node.go:284-286 | equal references keep their order |
| `Lineage.SortIsIdempotent` | pkg/ares/lineage/commit.go:38-41 | sorting again changes nothing |
| `Lineage.Commit` | pkg/ares/lineage/commit.go:21-55 | the signed node over sorted parents, or the two errors |
| `Lineage.CommitShape` | pkg/ares/lineage/commit.go:38-54 | the hash that was signed is the hash the node carries |
| `Lineage.CommitVerifies` | pkg/ares/lineage/verify.go:27-82 | every node Commit builds verifies against its payload |
| `Lineage.VerifyMeans` | pkg/ares/lineage/verify.go:27-82 | a node passes if and only if its hashes are those of the payload and its content, its producer is named, and the verifier of its algorithm accepts its signature over the signing message |
| `Lineage.HashIgnoresParentOrder` | pkg/ares/lineage/commit.go:31-42 | permuting the parents changes neither hash nor parent list |
| `Lineage.VerifiedHashFixesContent` | pkg/ares/lineage/verify.go:27-82 | two verified nodes with one hash agree on all identifying content and payload, or exhibit a hash collision |
| `Store.InMemoryStore.Append` | pkg/ares/lineage/inmemory.go:36-45 | extends the log unless the hash is present, both indexes agreeing with the log |
| `Store.InMemoryStore.Get` | pkg/ares/lineage/inmemory.go:48-56 | finds exactly the live hashes |
| `Store.InMemoryStore.WalkSession` | pkg/ares/lineage/inmemory.go:59-78 | exactly the session's live nodes in append order |
| `Store.InMemoryStore.Clear` | pkg/ares/lineage/inmemory.go:83-91 | removes that session's nodes and no others |
| `Store.HashInOneSession` | pkg/ares/lineage/inmemory.go:18-24 | each live hash is listed under one session only |
| `RunnerLineage.ResolveParents` | pkg/ares/phase/runner_lineage.go:255-282 | for each required byte input the first node of the session with that payload, if any |
| `RunnerLineage.CommitPhaseOutputs` | pkg/ares/phase/runner_lineage.go:209-246 | one stored node per committed output, stopping at a signing failure |
| `RunnerLineage.OutputsKeepOrder` | pkg/ares/phase/runner_lineage.go:209-282 | auto-commit keeps the log in topological order and only adds to it |
| `RunnerLineage.CommitIsExact` | pkg/ares/phase/runner_lineage.go:209-246 | after a commit without an error every byte output that is not marked NoLineage has its node in the store, and every node added is one of theirs |
| `RunnerLineage.ParentsAreInputs` | pkg/ares/phase/runner_lineage.go:255-282 | the parents are nodes of this session over the required inputs, and every required input with such a node has one among them |
| `RunnerLineage.ForgeryChangesNothing` | pkg/ares/phase/runner_lineage.go:54-108 | a message whose node describes another payload or carries no signature its verifier accepts changes neither store nor sessions |
| `RunnerLineage.LineageRunner.HandleLineageMessage` | pkg/ares/phase/runner_lineage.go:54-108 | dispatches exactly verified messages with known parents, and then also to a session; any other leaves store and sessions unchanged |
| `RunnerLineage.LineageRunner.BeginSession` | pkg/ares/phase/runner.go:324-368 | a session with an empty context and the shared store, exactly when the id is new and not empty and the first phase can be entered |
| `RunnerLineage.LineageRunner.SetValue` | pkg/ares/phase/context.go:119-123 | a caller's write to one key of one session's context and nothing else |
| `RunnerLineage.LineageRunner.HandleMessage` | pkg/ares/phase/runner.go:387-406 | the plain path: dispatch and auto-commit without verification |
| `RunnerLineage.LineageRunner.AdvanceToState` | pkg/ares/phase/runner.go:494-559 | the walk, with auto-commits to the shared store |
| `RunnerLineage.LineageRunner.EndSession` | pkg/ares/phase/runner.go:564-568 | drops that session and leaves the store as it is |
| `RunnerLineage.RunKeepsOrder` | pkg/ares/phase/runner_lineage.go:54-108 | from an empty store, any sequence of begin, seed, message, advance and end requests over any sessions keeps every parent before its children, only extends the store, and admits no node but those whose hash is that of some payload and its content, signed so that the verifier of its algorithm accepts or by this runner |
| `RunnerLineage.AppendOrderIff` | pkg/ares/lineage/inmemory.go:36-45 | an append keeps the order if and only if the node is known or its parents are present |
| `RunnerLineage.OrphanBreaksOrder` | pkg/ares/lineage/verify.go:21-23 | a node with an unknown parent, appended to the empty store, breaks the order |
| `RunnerLineage.AncestryGoesBack` | pkg/ares/phase/runner_lineage.go:70-104 | every walk from child to parent goes strictly back in append order, so there is no cycle |
| `Combine.ValidateShareRefs` | pkg/ares/crypto/cgo/incremental_combine.go:633-685 | accepts exactly the submissions in which every party names the lead's indices once each with valid references |
| `Combine.PerIndexIsAllAtOnce` | pkg/ares/crypto/cgo/incremental_combine.go:243-302 | combining index by index gives the all-at-once result, failures included, if and only if the lead's public key is readable or something else is out of order: a share, another public key or an index's fold |
| `Combine.IncrementalIsAllAtOnce` | pkg/ares/crypto/cgo/incremental_combine.go:160-189 | one share at a time gives the all-at-once result, failures included, under exactly that condition |
| `Combine.FoldDefined` | pkg/ares/crypto/cgo/incremental_combine.go:689-723 | the whole fold has a result if and only if the other parties' keys are readable, they hold the lead's indices and every index folds, and the result is each index's own chain |
| `Combine.LeadKeyGoesUnread` | pkg/ares/crypto/cgo/incremental_combine.go:160-302 | with a malformed lead key the incremental and per-index combines succeed and the all-at-once one refuses |
| `Combine.EitherFormLoads` | pkg/ares/crypto/cgo/incremental_combine.go:551-582 | if rebuilding undoes splitting, a reference to a key or to its a-part and b-part loads that key |
| `Combine.PlainSplits` | pkg/ares/crypto/cgo/incremental_combine.go:559-573 | an a-part and a b-part are put together in that order, in a native library for which the law holds |
| `NativeHandles.LoadCached` | pkg/ares/crypto/cgo/incremental_combine.go:334-376 | the cached resolver loads what the uncached one would, allocating one handle or none |
| `NativeHandles.CombinePerIndexLazy` | pkg/ares/crypto/cgo/incremental_combine.go:304-425 | returns the uncached result; on every path all handles are freed exactly once; never more than three rotation-key handles live |
| `NativeHandles.LazyIsAllAtOnce` | pkg/ares/crypto/cgo/incremental_combine.go:304-425 | for references cut from whole shares the lazy combine gives the all-at-once result, failures included, if and only if the lead's public key is readable or something else is out of order |
| `NativeHandles.SubmissionIsAllAtOnce` | pkg/ares/crypto/cgo/incremental_combine.go:304-425 | when each party gives each key whole or in its two parts, the lazy combine gives the all-at-once result of the whole shares under the same condition |
| `NativeHandles.CombineIncremental` | pkg/ares/crypto/cgo/incremental_combine.go:160-189 | folds one share at a time with at most two live rotation-key handles and no leak |
| `Permutation.SeedStream.Next` | pkg/ares/onion/permutation.go:39-51 | the next byte of the counter-mode stream |
| `Permutation.SeedStream.IntN` | pkg/ares/onion/permutation.go:55-66 | the residue of the first accepted word, always below m |
| `Permutation.StreamIsCounterMode` | pkg/ares/onion/permutation.go:30-51 | the k-th 32 bytes of the stream are the hash of the seed followed by the eight bytes that read k, most significant first |
| `Permutation.WordBytes` | pkg/ares/onion/permutation.go:61 | a sampling word is its four stream bytes, the first most significant |
| `Permutation.SamplingIsUnbiased` | pkg/ares/onion/permutation.go:53-66 | exactly limit/m accepted words fall on each residue, and at most m words are rejected |
| `Permutation.SlotPermutation` | pkg/ares/onion/permutation.go:10-28 | the in-place loop yields the ordering that the seed alone determines: the shuffle by the residues of the first words accepted from the seed's stream; it is a permutation of [0,n) |
| `Permutation.SlotsAreDistinct` | pkg/ares/phase/anon/participant.go:41-43 | no two participants of one seed get the same slot |
| `Permutation.ShuffleIsInjective` | pkg/ares/onion/permutation.go:22-26 | different draws give different permutations |
| `Permutation.ShuffleIsSurjective` | pkg/ares/onion/permutation.go:22-26 | every permutation comes from some draws |
| `Onion.BuildOnion` | pkg/ares/onion/onion.go:20-36 | all layers in reverse peel order, and the memo is the onion from the builder's own layer in |
| `Onion.PeelBatch` | pkg/ares/onion/onion.go:48-65 | opens every item in order and finds the own one by its last match, failing exactly when one does not open or the memo is absent |
| `Onion.PeelRound` | pkg/ares/onion/onion.go:38-65 | with matching keys a peeler opens every item and finds its own, whatever order the batch is in |
| `Onion.ReorderKeepsRound` | pkg/ares/phase/anon/states.go:36-38 | a peeler that reorders what it forwards hands on a batch that the next round accepts just as well |
| `Onion.EveryPayloadArrives` | pkg/ares/onion/onion.go:11-65 | after the last round each party's payload is at exactly one place |
| `Onion.NothingIsBareEarly` | pkg/ares/onion/doc.go:19-29 | before the final round every item is still sealed to its next peeler and equals no payload of its own payload's length or less |
| `Onion.AssembleBatch` | examples/voting/cmd/session-service/main.go:170-194 | each participant's first onion in participant order, or nothing unless all are usable |
| `Onion.RelayBatch` | examples/voting/cmd/session-service/main.go:122-141 | the chain starts at the first participant if and only if enough batches are in and every participant's onion is usable; for distinct participants the second implies the first |
| `Onion.RelayPeeled` | examples/voting/cmd/session-service/main.go:143-165 | a peeled batch goes to the sender's successor and from the last one nowhere |
| `Onion.RunSession` | examples/voting/cmd/session-service/main.go:96-166 | whatever order each peeler forwards its batch in, a whole session delivers every payload, arranged by the composition of those orders |
| `Onion.RunUnshuffled` | pkg/ares/onion/onion.go:38-65 | a session whose peelers forward what PeelBatch returns ends with the payloads in participant order |
| `Onion.OnePeelerSuffices` | pkg/ares/phase/anon/states.go:36-38 | whatever earlier peelers did, one peeler's order can bring about every arrangement |
| `RateLimit.NewRateLimiter` | pkg/ares/transport/rate_limit.go:28-38 | a full bucket, or none exactly when rate or burst is not positive |
| `RateLimit.RateLimiter.Allow` | pkg/ares/transport/rate_limit.go:45-63 | one refill and at most one token, for any clock |
| `RateLimit.AllowOrDisabled` | pkg/ares/transport/rate_limit.go:44-63 | an absent limiter admits everything; a present one decides as `Allow` does |
| `RateLimit.BurstIsBounded` | pkg/ares/transport/rate_limit.go:40-63 | in any stretch of calls at most capacity + rate * (advance of the latest time seen) are allowed |
| `RateLimit.BurstIsExact` | pkg/ares/transport/rate_limit.go:44-63 | of any number of calls at one instant a full bucket admits the whole part of its capacity, or all of them if they are fewer |
| `RateLimit.NeverRefusedIff` | pkg/ares/transport/rate_limit.go:40-63 | a sender spaced at least 1/rate apart is never refused if and only if the capacity is at least one |

## Left out

- Noise, rounding and multiplicative depth of the homomorphic circuit, `DecodeOneHot` and `PaddingValue`: not exact code properties, or unused by the decision.
- `math.Ceil`/`math.Floor` conversions to machine integers and non-finite prices in the encoders: `real` has neither.
- Failures of single homomorphic operations inside EvalClearing: they only pass the error on.
- `Snapshot`, state broadcasts and the trade's time of day: rendering and clock.
- Interleaving inside one hub message: `Hub.Handle` takes each message as one step, while the source releases the lock between the relay call and its queries.
- Tabs in `Ledger` are values rather than objects, and only what touches their ledger is in their channel.
- BooksBalance: runs without departures, because a departing tab takes its ledger with it and the next one may change roles.
- References shared with callers (`Peer`, `SessionContext`): peers and contexts are values, so aliasing is not modelled.
- Swift string semantics: escaping and key comparison act on bytes, not on grapheme clusters, and payload bytes are taken to be valid UTF-8.
- `decodeInbound` beyond the payload, and JSONEncoder's output for a lineage node, which is any well-formed value here.
- The regular expressions and the checks built on extracted calls in the release-manifest gate.
- `HandleLineageMessage` on a runner without a store, failure hooks, mismatch claims and `CommitArtifact`: hooks are taken to leave the store alone.
- Unsynchronised concurrency on one session's tracker: messages of a session are taken one at a time.
- `InsertEvalSumKeysPerIndexLazyWithContext`, the eval-mult round and `EvalSumIncrementalFold`: the same fold with another sink.
- LazyIsAllAtOnce, PerIndexIsAllAtOnce: native allocation is taken to succeed when an index is started or merged; the all-at-once path has neither step.
- Rebuilding a key from an a-part and a b-part at once is taken to be reading the a-part and then rebuilding; a failed native fold is taken to leave its accumulator unchanged.
- CallsAreComplete: tokens without quotes and hashes, because after a call to any other token the scan resumes off its own path; both callers pass such tokens.
- SwiftCallsOf: returns the bounds of each call; the source returns the text between them.
- SlotPermutation: assumes that from every stream position some later word is accepted, without which the source loops forever, and fewer than 2^32 slots.
- Example phase bodies, transports, credentials, market bands, BFV packing, release bundling other than the scanner: they would add easy members only.
