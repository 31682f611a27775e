# A verified model of the validator's epoch cycle

The validator of this subnet turns Rancher evidence into one weight vector per chain epoch: it reads clusters and nodes,
decides which miners are ready, counts their GPUs, prices them, divides the emission pool, and submits the result at most
once per epoch. Around that cycle sit the price card and switches that owner and readers share through one stored object,
and the hotkey-signed proxy through which readers see the owner's Rancher. This project models those parts in Dafny and
proves what they promise, or exactly when they do not.

Amounts of money, weights and times are `real`; blocks, epochs and GPU counts are integers; dictionaries are `map`s that
loops visit in an arbitrary order; text on the wire is a sequence of bytes. A raised exception is an `Option` or a result
datatype. Network answers, clocks and the outcome of a write are parameters, so every theorem holds whatever they are.

## Layout

| file | modules | content |
|---|---|---|
| `Prelude.dfy`, `Ratios.dfy`, `Totals.dfy` | Prelude, Ratios, Totals | options, quotients of reals, `sum(d.values())` independent of order |
| `Scoring.dfy`, `ScoringLaws.dfy` | Scoring, ScoringLaws | the weight loops, their closed form, incentives, normalisation, dollars |
| `Submission.dfy` | Submission | the once-per-epoch state machine over whole runs |
| `PriceCard.dfy`, `CardLaws.dfy`, `ParseLaws.dfy` | Json, PriceCard, CardLaws, ParseLaws | building, parsing, the two envelopes, the operator's flip on the object; the parser over the written fields |
| `PayoutFeed.dfy`, `FeedLaws.dfy` | MarketPricing, PayoutFeed, FeedLaws | feed tables, four tiers, three pricing modes; pay over the raw answers |
| `CardCycle.dfy`, `CardProtocol.dfy` | CardCycle, CardProtocol | reader and owner cycles; owner, script and readers interleaved over one object |
| `PricingLaws.dfy` | PricingLaws | bounds on pay, owner/reader agreement |
| `Readiness.dfy`, `Inventory.dfy`, `ReadinessLaws.dfy`, `Payroll.dfy` | Readiness, Inventory, ReadinessLaws, Payroll | freshness, verdict, GPU counting, both over the raw labels and time stamps, no node paid for twice |
| `Contract.dfy` | Contract | the verdict against the written eligibility contract |
| `Utf8.dfy`, `QueryString.dfy`, `QueryLaws.dfy` | Utf8, QueryString, QueryLaws | UTF-8 with replacement, percent-encoding (sections 2.1 and 2.3 of RFC 3986), round trips and reading byte by byte |
| `Pagination.dfy`, `Proxy.dfy`, `ProxyLaws.dfy` | Pagination, Proxy, ProxyLaws | marker pages, allowlist and signature, who is let in and which bytes are signed |
| `PriceFeed.dfy`, `PriceLaws.dfy` | Chain, PriceFeed, CyclePrices, PriceLaws | TAO/USD, alpha/TAO, the emission pool, when a cycle is skipped for want of prices; every source in its order |
| `Cycle.dfy`, `Fleet.dfy` | Cycle, Fleet | inventory to vector: who earns, what a weight says about the evidence, the pot against the fleet |
| `Validator.dfy`, `ValidatorRuns.dfy`, `WorthLaws.dfy` | Validator, ValidatorRuns, WorthLaws | the validator as an object: one cycle from the metagraph read to the submission, all its runs, and what a weight pays in plain numbers |
| `ReaderEvidence.dfy`, `Consensus.dfy` | ReaderEvidence, Consensus | the evidence through the proxy; two validators with their own reads and one vector |

## Where the code differs from its own description

The model follows the code. Each item names the lemma with the exact condition, the witness, or both.

- The operator's script promises that a flip survives the owner's next publish (`validator/scripts/set_pricing_flags.py:15-19`).
  Over every interleaving, the stored switches are those of the last written flip exactly when no later put carries switches
  read before it or not properly read, or the last such put carries the same (`FlipSurvivesIff`). Without overlap and failed
  owner reads the object always means the last flip and the last put (`StoredIsRegister`). Witnesses: `OverlapLosesFlip`, `FailedReadResetsSwitches`; a script
  around an owner put keeps the flip and loses the owner's prices (`OverlapRevertsOwnerCard`).
- "Once per epoch" holds for a constant tempo between acceptances that read their block (`OncePerRealEpoch`). A first
  acceptance without a block read allows another one in the same epoch exactly under the condition of `BlindResubmission`,
  and a tempo that changes after an acceptance exactly under that of `SameEpochAgain` (`TempoShrinkWitness`: blocks 7200 and
  7300, one epoch under the old tempo and under the new). A tempo that grows blocks submission until the old epoch number is
  passed on the new scale (`WaitsForOldEpoch`, `TempoGrowthWitness`).
- A class that no feed covers is said to pay its floor (`validator/market_pricing.py:10`). In the last feed tier the card
  itself stands in for the feed and the class pays 1.10 times the card (`UncoveredClassPaysFloor`).
- Readers are meant to price with the published card. They take only floors and switches from it, and pay what its prices
  would give, whatever the feeds answer, exactly when their local card is that card inside its envelope
  (`PublishedPricesPaidIff`; witness `RepricedObjectIgnored`).
- An owner prices with the floors it publishes, a reader with those floors pulled into [0.5, 1.25] of the default. They
  agree exactly when every floor is harmless in the sense of `OwnerReaderAgreement`; the default floor of three quarters of
  the card is, exactly for card prices within the bounds of `DefaultFloorsHarmless`.
- A local card with a class the program does not know is published, and no reader accepts the object
  (`UnknownClassLocksReadersOut`).
- The eligibility text (`validator/infrastructure_validation.py:3-16`) asks for a schedulable confidential worker with eight
  GPUs of four classes; the verdict asks for a schedulable worker and a schedulable confidential GPU node of any class and
  count, which may be two nodes. It implies the text for every pattern of live nodes exactly when the nodes that are not such
  a worker cannot pass it among themselves (`VerdictKeepsPromiseIff`; witness `OneGpuNoWorkerIsReady`). The eight GPUs enter
  at payout (`WeightMeansEvidence`).
- A condition's time stamp is said to be its newest (`validator/infrastructure_validation.py:73`). It is the first that parses
  in the order heartbeat, update, transition, whatever the later ones say (`ReadyIff`, `HeartbeatDecides`; the newest counts
  between conditions only, `TwoCopiesWitness`).
- Cluster ids are taken to be distinct. No node is paid for twice exactly when any two miners that may be ready, by labels
  and cluster state or as the staging miner, have first clusters with different ids (`NoNodePaysTwiceIff`; witnesses
  `SharedIdPaysTwice`, and `BannedTwinIsHarmless` for a shared id that costs nothing).
- Readers are to see the owner's evidence. They do, but for a cluster whose id is blank: the owner reads on and every reader
  has an outage (`SameEvidence`).
- The owner's staging miner is ready whatever its verdict: bans and unhealthy clusters do not stop it
  (`BannedStagingMinerEarns`).
- The pool service's quotient is alpha per TAO where TAO per alpha is meant (`PoolQuotientInverted`;
  witness `PoolQuotientWitness`: a pool of 2 alpha and 1 TAO gives 2). Whether there is a rate
  decides the branch a cycle takes; its value reaches no weight (`RateValueIrrelevant`, `Validator.RunCycle`), because
  weights divide by the pool and not by `usd_per_alpha` as the header of `validator/miner_scoring.py` says.
- Pagination has no protection against a repeated marker; the loop then never ends (`RepeatedMarkerNeverEnds`). It ends
  exactly when it meets finitely many markers and asks for none twice (`EndsIffFiniteNoRepeat`), which for markers from a
  finite set shows within one request more than the set is large (`EndsIffNoRepeat`).

## Model

| member | source | states |
|---|---|---|
| Scoring.ComputeWeights | validator/miner_scoring.py:81-159 | the loops produce the declarative split of the earnings table, its remainder as the owner weight, and refuse exactly a pool that is not positive |
| Scoring.SplitPool | validator/miner_scoring.py:121-152 | dividing by the pool, scaling back when it is exceeded and placing the remainder is division by max(pool, total earned) plus remainder, or by the total without an owner |
| Scoring.EarningLoop | validator/miner_scoring.py:97-115 | the earning loop fills the table of exactly the ready miners with positive earnings |
| Scoring.UsdFromBreakdown | validator/miner_scoring.py:65-78 | the running total is the sum of count times card price over all entries, unknown classes counting zero |
| Scoring.EarnedMapExact | validator/miner_scoring.py:103-115 | with distinct uids each entry is its own miner's earnings and only earners have one |
| ScoringLaws.WeightWithOwner | validator/miner_scoring.py:97-159 | each miner's weight is e / max(pool, sum of e), and the owner has everything unearned on top |
| ScoringLaws.WeightWithoutOwner | validator/miner_scoring.py:117-166 | without the owner, e / sum of e; with nothing earned, an even split |
| ScoringLaws.OrderIndependent | validator/miner_scoring.py:97-159 | any reordering of the metagraph gives the same vector |
| ScoringLaws.Normalised | validator/validator.py:343-348 | the submitted vector has exactly the metagraph's uids, no negative entry, sum one, and padding dropped nothing |
| ScoringLaws.OnlyEarnersOrOwner | validator/miner_scoring.py:117-166 | a uid other than the owner's has weight exactly if it is a ready earner |
| ScoringLaws.RaisingEarnings | validator/miner_scoring.py:103-166 | earning more never lowers one's own weight and never raises that of another non-owner, with or without the owner in the metagraph |
| ScoringLaws.RatiosPreserved | validator/miner_scoring.py:127-152 | weights of two non-owners stand exactly in the ratio of their earnings |
| ScoringLaws.PayDealtOut | validator/miner_scoring.py:65-78 | GPUs dealt out over two uids, per class and with either side possibly empty, earn together what they earned under one |
| ScoringLaws.UsdByCounts | validator/miner_scoring.py:65-78 | what a breakdown is worth depends on its total per class only |
| ScoringLaws.SplitNeutral | validator/miner_scoring.py:65-152 | from GPUs to weights: dealing a miner's GPUs out over two uids changes neither the combined weight nor anybody else's, with the owner present or anything earned |
| ScoringLaws.DollarsWithinPool | validator/miner_scoring.py:81-159 | while the pool suffices, weight times pool is hourly target x tenure x hours exactly for every ready non-owner, and earned plus recycled is the pool |
| ScoringLaws.DollarsBeyondPool | validator/miner_scoring.py:132-146 | beyond the pool everybody is cut by the one factor pool / sum of e and nothing is recycled |
| WorthLaws.EarnedIff | validator/miner_scoring.py:97-115 | an entry of the earnings table is what the uid's last earning record earns |
| WorthLaws.ListingWorth | validator/miner_scoring.py:65-78 | each entry adds its count at the price of its class in upper case, nothing for a class not on the card |
| WorthLaws.TargetIs | validator/miner_scoring.py:55-109 | the breakdown where there is one, else eight GPUs a worker of the dominant class; tenure is cut to [0, 1] |
| Submission.WeightSubmitter.SetWeightsOncePerEpoch | validator/validator.py:700-755 | the method refines the transition function; rejections and waits change nothing; each outcome arises exactly in its case |
| Submission.SubmitsIff | validator/validator.py:677-755 | read by read, failed reads as tempo 360, block 0 and limit 100: a cycle submits if and only if the chain takes it, its block is past the end of the recorded epoch in whole tempos, and the limit has passed; it then records its own block and the epoch around it |
| Submission.SubmissionsSpaced | validator/validator.py:700-755 | from any state and for any reads, accepted epochs strictly grow and consecutive ones are at least the later rate limit apart |
| Submission.AcceptancesInSpan | validator/validator.py:700-755 | under constant tempo T and limit R a span of B blocks holds at most B/T + 2 and B/R + 1 acceptances |
| Submission.ReachableConsistent | validator/validator.py:84-85 | in every reachable state both fields are set or neither is |
| Submission.FailedReadNeverResubmits | validator/validator.py:677-681 | after the first acceptance a failed block read never submits |
| Submission.OncePerRealEpoch | validator/validator.py:677-755 | later acceptances lie in later real epochs when the earlier one read its block |
| Submission.OnlyFirstBlind | validator/validator.py:677-755 | only the first acceptance can be one without a block read |
| Submission.BlindResubmission | validator/validator.py:677-755 | after a first cycle accepted without a block read, a second acceptance in the same real epoch is possible if and only if that epoch is not 0 and its end is past the rate limit |
| Submission.SameEpochAgain | validator/validator.py:689-755 | after an acceptance in epoch e at block b, a second one in the epoch of b under a new tempo T is possible if and only if b / T > e and that epoch ends at or after b plus the rate limit |
| Submission.TempoShrinkWitness | validator/validator.py:689-755 | acceptances at 7200 under tempo 360 and at 7300 under tempo 300 lie in one epoch on both scales |
| Submission.NextAcceptance | validator/validator.py:700-755 | with a steady chain and cycles at most g apart the next acceptance comes within max(T, R) + g blocks |
| Submission.WaitsForOldEpoch | validator/validator.py:689-755 | submission resumes exactly when the block passes the old epoch number on the current scale and the limit |
| Submission.TempoGrowthBlocks | validator/validator.py:689-755 | while blocks stay below that point no run submits |
| Submission.TempoGrowthWitness | validator/validator.py:689-755 | tempo 100 to 360 after block 7200 blocks everything before block 26280 |
| PriceCard.BuildPriceCard | validator/price_card.py:67-99 | the object carries the upper-cased prices, the floors if there are any, and both switches |
| PriceCard.ParsePriceCard | validator/price_card.py:142-172 | parsing loops with early rejection give the declarative reading of the object |
| PriceCard.FloorsFromPayload | validator/price_card.py:102-123 | unusable floors are dropped one by one, the others pulled into their band |
| PriceCard.ClampToEnvelope | validator/price_card.py:175-187 | the loop gives the clamp of every compiled-in class, omitted ones at the default |
| ParseLaws.ParsedIff | validator/price_card.py:102-172 | for any object and terms: it parses to these terms if and only if the version is one, every price entry gives a known class a positive number and the last of a class counts, usable floors likewise inside their band, and switches are booleans or the defaults |
| ParseLaws.CardIff | validator/price_card.py:153-168 | one unusable entry rejects the whole price table, else each class has its last entry's price |
| ParseLaws.FloorsIff | validator/price_card.py:102-123 | an unusable floor is passed over; a class has its last usable floor, moved to the nearest point of half to five quarters of the compiled-in price |
| ParseLaws.ClampedIff | validator/price_card.py:175-187 | a class is priced at the point of [0.8, 1.25] times the compiled-in price nearest to the published one, at that price itself where none is published |
| ParseLaws.EnvelopeWitness | validator/price_card.py:175-187 | 100 dollars and one cent become 5.00 and 6.40, omitted classes keep 5.50, 10.00 and 2.50 |
| ParseLaws.ResolveIs | validator/price_card.py:190-239 | a valid object is adopted with its own floors and switches; else the held terms; else the compiled-in card without floors and with targon on alone; the owner's switches likewise |
| ParseLaws.PublishedFloorIff | validator/validator.py:481-498 | a published floor is the positive override or three quarters of the price, for the card's classes only |
| CardLaws.ReadBack | validator/price_card.py:67-172 | what a reader makes of any published card, including rejection exactly for empty, unknown or non-positive prices |
| CardLaws.RoundTrip | validator/price_card.py:67-172 | parse(build(x)) = x if and only if classes are known, prices positive, and floors absent or present and in band |
| CardLaws.HostilePayload | validator/price_card.py:102-172 | any object that parses has known positive prices and floors within [0.5, 1.25] of default |
| CardLaws.EnvelopeHolds | validator/price_card.py:175-187 | after the clamp exactly the compiled-in classes, each within [0.8, 1.25] of default |
| CardLaws.EnvelopeIdempotent | validator/price_card.py:175-187 | clamping twice is clamping once and leaves in-band prices alone |
| CardLaws.FlipReads | validator/scripts/set_pricing_flags.py:112-133 | the script's write changes the two switches and the time stamp and no other field |
| CardLaws.FlipKeepsCard | validator/scripts/set_pricing_flags.py:112-133 | a flip of a valid card changes the switches and nothing else a reader sees |
| ParseLaws.PublishedIs | validator/price_card.py:67-99 | a published object holds its epoch, version one, each price and each floor exactly once, and both switches |
| MarketPricing.PerClassFromSnapshot | validator/targon_payout_feed.py:93-124 | the loop finds for each class the highest eligible rate |
| MarketPricing.PerClassFromRows | validator/market_pricing.py:89-109 | the same for the other feed's loop with its different comparison |
| MarketPricing.HighestRatesUnique | validator/market_pricing.py:89-109 | the table depends neither on order nor on repetition of rows |
| FeedLaws.TableIsHighest | validator/targon_payout_feed.py:93-124 | a class is in a feed's table with a rate if and only if that is the highest any row pays; a preferred cell that is present is not made up for by the other one |
| FeedLaws.TierIff | validator/targon_payout_feed.py:267-299 | live if it answers, even emptily; else a cache that is not empty; else such a snapshot; else the card |
| FeedLaws.FloorIff | validator/targon_payout_feed.py:259-265 | the smaller of a positive manual floor and the card, else three quarters of the card |
| FeedLaws.ManualIff | validator/targon_payout_feed.py:247-257 | exactly the positive floors of a table that is not empty are kept |
| FeedLaws.ClampModePay | validator/targon_payout_feed.py:313-326 | clamp mode pays the tier's price between floor and card, the card from the card upwards and for an absent class, the floor from the floor downwards |
| FeedLaws.LiveClampPay | validator/targon_payout_feed.py:93-326 | from rows to pay: the highest live rate between floor and card, its edges beyond them, the card without a paying row |
| FeedLaws.FlatPay | validator/targon_payout_feed.py:316-320 | with both switches off the card is paid |
| FeedLaws.MarketModeRaw | validator/targon_payout_feed.py:328-364 | market pay is the greatest of the floor and 1.10 times each positive price in the tier or the other feed, with either setting of the other switch |
| FeedLaws.ClampWitness | validator/targon_payout_feed.py:321-325 | card 4.00, floor 3.00, live 3.50 pays 3.50 |
| PayoutFeed.TargonPayoutFeed.constructor | validator/targon_payout_feed.py:182-197 | the committed card is the compiled-in one with the local override on top |
| PayoutFeed.TargonPayoutFeed.SetPricingFlags | validator/targon_payout_feed.py:199-212 | missing switches become the defaults |
| PayoutFeed.TargonPayoutFeed.SetManualFloors | validator/targon_payout_feed.py:247-257 | only positive floors are kept, none for an empty table |
| PayoutFeed.TargonPayoutFeed.EffectiveCard | validator/targon_payout_feed.py:301-326 | mode dispatch and loops give the per-class pay of the mode; the other feed's state moves only in market mode |
| PayoutFeed.TargonPayoutFeed.ClampedCard | validator/targon_payout_feed.py:313-326 | clamp mode per class |
| PayoutFeed.TargonPayoutFeed.MarketEffectiveCard | validator/targon_payout_feed.py:328-364 | market mode per class, with the source and prices it remembers |
| CardCycle.PublisherFloors | validator/validator.py:481-498 | positive overrides, else three quarters of the card |
| CardCycle.CardHolder.ReaderCycle | validator/validator.py:80-118 | a reader's cycle refines the transition on held terms and hands the feed exactly the held floors and switches |
| CardCycle.CardHolder.OwnerCycle | validator/validator.py:439-498 | the owner publishes its own card with the switches it read and prices with the same terms |
| CardCycle.ResolveCard | validator/price_card.py:190-239 | parsing, clamping and falling back amount to the declarative resolution |
| CardCycle.ReaderStep | validator/price_card.py:190-255 | a cycle is refused exactly when nothing was held and nothing valid was fetched |
| CardCycle.ReaderInvariant | validator/price_card.py:190-255 | over every sequence of fetches a reader holds the enveloped terms of the last valid one, and none before the first |
| CardProtocol.RunScript | validator/scripts/set_pricing_flags.py:56-142 | the script's in-place edit is the flip of the fetched object, and it writes nothing exactly for a bad card or options already met; each switch written is its own option or as stored |
| CardProtocol.ScriptWrites | validator/scripts/set_pricing_flags.py:88-133 | nothing is written if and only if the card is bad or every option given is already stored; else each switch is its own option, or as it was, and no field but the switches and the time stamp changes |
| CardProtocol.GetBehind | validator/scripts/set_pricing_flags.py:88-133 | over every interleaving, what the script is about to write is its options over the switches of the get it goes back to |
| CardProtocol.LiumOnWitness | validator/scripts/set_pricing_flags.py:115-130 | --lium on over targon on and lium off leaves both on |
| CardProtocol.StepKeeps | validator/scripts/set_pricing_flags.py:88-133 | each orderly step keeps the stored object equal to the atomic register |
| CardProtocol.StoredIsRegister | validator/scripts/set_pricing_flags.py:15-19 | in every orderly interleaving the stored switches are those of the last flip, prices and floors those of the last put |
| CardProtocol.ReaderAdopts | validator/validator.py:439-457 | a reader that read after the last flip holds its switches from then on |
| CardProtocol.FlipSurvivesIff | validator/scripts/set_pricing_flags.py:15-19 | over every interleaving, after the last written flip the stored switches are its own if and only if no later put of old or badly read switches happened, or the last one wrote the same |
| CardProtocol.PutWritesItsSwitches | validator/validator.py:459-479 | an owner put stores exactly the switches the owner holds |
| CardProtocol.OverlapLosesFlip | validator/validator.py:459-479 | a flip inside the owner's read..put is undone, whatever it asked for |
| CardProtocol.FailedReadResetsSwitches | validator/validator.py:459-479 | a failed owner read before a put keeps the switches if and only if they were the defaults |
| CardProtocol.OverlapRevertsOwnerCard | validator/scripts/set_pricing_flags.py:88-133 | an owner put inside the script's get..put loses its prices and floors |
| PricingLaws.HostilePay | validator/targon_payout_feed.py:259-326 | for any object, clamp pay is at most the card and at least min(card, half the default), or 3/4 card without a floor |
| PricingLaws.EffectivePositive | validator/targon_payout_feed.py:301-364 | in every mode a class with a positive card price is paid a positive price |
| PricingLaws.MarketModePay | validator/targon_payout_feed.py:328-364 | market pay is the least amount at least the floor and 1.10 times every feed price, in every tier |
| PricingLaws.LiveMarketPay | validator/market_pricing.py:89-109 | from rows to pay: with both feeds live, the greatest of the floor and 1.10 times every eligible rate of either feed's rows |
| PricingLaws.UncoveredClassPaysFloor | validator/targon_payout_feed.py:267-299 | an uncovered class pays its floor if and only if some tier above the card answered; else 1.10 times the card |
| PricingLaws.PublishedPricesPaidIff | validator/targon_payout_feed.py:187-188 | a reader pays what the published prices would give, for all feed data, if and only if its local card is the published one inside its envelope |
| PricingLaws.RepricedObjectIgnored | validator/targon_payout_feed.py:187-188 | two objects a tenth above and below the default price are paid alike, against either published price |
| PricingLaws.OwnerReaderAgreement | validator/validator.py:481-498 | owner and reader pay alike for all feed data if and only if no mode looks at floors or every floor is harmless |
| PricingLaws.HarmlessIsSameCut | validator/price_card.py:102-123 | the caller's check on a floor is exactly that both sides cut at the same price |
| PricingLaws.DefaultFloorsHarmless | validator/validator.py:481-498 | for which card prices the default floor keeps owner and reader together |
| PricingLaws.UnknownClassLocksReadersOut | validator/price_card.py:142-172 | a local card with an unknown class or bad price is accepted by no reader |
| ReaderEvidence.SameEvidence | validator/validator.py:96-107 | a permitted reader has exactly the owner's evidence or outage, except that a blank cluster id makes an outage for readers alone |
| ReaderEvidence.EvidenceIs | validator/validator.py:96-107 | the evidence is all clusters and, under each one's id or name, the nodes listed for it; one failed list and there is none |
| Consensus.SameCard | validator/validator.py:109-125 | from the object the owner published to equal effective cards of two validators, when its floors are harmless |
| Consensus.SameVector | validator/validator.py:90-348 | two validators with their own clocks, prices and fetches make the same normalised vector under harmless floors, equal pools and feed answers, and no node changing between live and dead in between |
| Readiness.ReadyMeansFreshClaim | validator/infrastructure_validation.py:81-102 | ready means some condition claims Ready with a time stamp at most 900 s old |
| Readiness.ReadyAntitone | validator/infrastructure_validation.py:215-261 | ready at some reading means ready at every earlier one of the same snapshot |
| Readiness.ReadyOrderFree | validator/infrastructure_validation.py:81-102 | order and repetition of conditions do not matter |
| Readiness.OlderCopyIgnored | validator/infrastructure_validation.py:81-102 | an older or unstamped further copy changes nothing |
| ReadinessLaws.ReadyIff | validator/infrastructure_validation.py:72-102 | ready if and only if some Ready/True condition has a heartbeat at most 900 s old, or no heartbeat and such an update, or neither and such a transition |
| ReadinessLaws.StaleIff | validator/infrastructure_validation.py:81-102 | stale if and only if some condition says Ready and none of those is that young |
| ReadinessLaws.HeartbeatDecides | validator/infrastructure_validation.py:72-78 | next to a heartbeat the update and transition stamps change neither verdict |
| ReadinessLaws.TwoCopiesWitness | validator/tests/test_infrastructure_validation.py:254-297 | two copies of Ready with five-day-old transitions: a heartbeat of 30 s is ready, one of an hour stale |
| ReadinessLaws.HealthyIff | validator/infrastructure_validation.py:316-329 | a cluster fails if and only if it has a Ready condition and the first of them is not True |
| ReadinessLaws.BoundIff | validator/rancher_client.py:47-49 | a hotkey has no cluster, one, or more as the clusters do that carry it by label, or by the older label without one |
| ReadinessLaws.BoundStarts | validator/infrastructure_validation.py:341 | the list of a hotkey starts with the first cluster that carries it |
| ReadinessLaws.NodesIff | validator/validator.py:611-615 | the nodes are those under the first such cluster's id, or its name where it has no id |
| ReadinessLaws.ObjectionIff | validator/infrastructure_validation.py:332-421 | each reason stands exactly for its objection over the raw nodes: roles, 72 cores, 1024 GiB, confidential GPU node |
| ReadinessLaws.EligibleIff | validator/infrastructure_validation.py:332-421 | the whole contract of a ready miner over labels, time stamps and sizes |
| Readiness.ValidateMiner | validator/infrastructure_validation.py:332-421 | the verdict lists exactly the reasons that stand and is ready exactly for eligible miners |
| Readiness.EligibleIsNoReason | validator/infrastructure_validation.py:332-421 | the eligibility condition is the absence of every reason |
| Contract.VerdictKeepsPromiseIff | validator/infrastructure_validation.py:3-16 | the verdict implies the written contract for every pattern of live nodes if and only if the nodes that are not the promised eight-GPU worker cannot pass it among themselves |
| Contract.OneGpuNoWorkerIsReady | validator/infrastructure_validation.py:399-419 | an all-roles node without GPUs beside a non-worker node of one H100 is ready, against the contract |
| Inventory.CountNodes | validator/validator.py:616-645 | the table holds exactly the classes with something counted and their totals |
| ReadinessLaws.CountedIff | validator/validator.py:616-645 | a node adds n GPUs if and only if it says so (eight without a label), n is at least eight, it is alive, schedulable, of a class, and confidential, or TDX capable for the staging miner |
| ReadinessLaws.TotalOfOneMore | validator/validator.py:616-645 | a class total is what its nodes add, one by one |
| Inventory.MinerGpuBreakdown | validator/validator.py:603-645 | counting is over the nodes of the first cluster bound to the hotkey |
| Inventory.SameBoundClusters | validator/validator.py:216-281 | the verdict's filtered list and the payout's full list bind the same clusters to a registered hotkey |
| Payroll.NoNodePaysTwice | validator/validator.py:603-660 | per class, what all miners are paid for never exceeds the inventory, when any two miners that may be ready have first clusters with different ids |
| Payroll.NoNodePaysTwiceIff | validator/validator.py:603-660 | that holds for every inventory, clock and class if and only if those ids are different; unready miners are paid for nothing |
| Payroll.DistinctIdsSuffice | validator/rancher_client.py:183-184 | distinct hotkeys and distinct cluster ids are enough |
| Payroll.SharedIdPaysTwice | validator/rancher_client.py:183-184 | two clusters in order under one id: eight H100s are paid for as sixteen |
| Payroll.BannedTwinIsHarmless | validator/validator.py:656-657 | with the second one banned nothing is paid for twice, whatever nodes, clocks and class |
| Inventory.FrozenCountsNothing | validator/validator.py:616-619 | a frozen node counts zero now and later, the staging exception included |
| Inventory.FrozenClusterEmpty | validator/validator.py:616-619 | a cluster of frozen nodes counts zero in every class |
| Inventory.CountedWasReady | validator/validator.py:226-245 | what counts at payout was Ready at the earlier verdict and has eight GPUs or more |
| Utf8.RepairedText | validator/rancher_proxy.py:134-136 | decoding with replacement changes bytes exactly when they are not UTF-8 |
| QueryString.QueryRoundTrip | validator/rancher_client.py:150-167 | reading a printed query gives the same pairs in the same order, for all text |
| QueryString.UrlEncodeInjective | validator/rancher_client.py:162-164 | different parameters print differently |
| QueryString.SplitPrinted | validator/rancher_client.py:111-116 | a printed target splits into its path and its query |
| QueryString.AuthMessageInjective | validator/rancher_client.py:91-109 | equal signed messages mean equal path, parameters and time stamp |
| QueryLaws.QuoteEach | validator/rancher_client.py:162-164 | printing is byte by byte: unreserved as it is, '+' for a space, '%' and two upper-case hex digits for the rest |
| QueryLaws.DecodeEscape | validator/rancher_proxy.py:134-136 | '%' and two hex digits in either case are their byte |
| QueryLaws.DecodeLone | validator/rancher_proxy.py:134-136 | any other '%' stands for itself |
| QueryLaws.PieceByPiece | validator/rancher_proxy.py:134-136 | a query is read piece by piece, empty ones skipped |
| QueryLaws.OnePiece | validator/rancher_proxy.py:134-136 | a piece splits at its first '=', and is a name with a blank value without one |
| QueryLaws.UnquoteIs | validator/rancher_proxy.py:134-136 | an ASCII stretch is decoded and repaired as one, a byte outside it is the character of that number |
| QueryLaws.SplitIs | validator/rancher_proxy.py:134-135 | the path ends at the first '?', the query at the first '#' |
| QueryLaws.CharacterIff | validator/rancher_proxy.py:134-136 | the bytes taken for one character are exactly those of a code point |
| QueryLaws.RepairedEach | validator/rancher_proxy.py:134-136 | a whole character stays, a byte that starts none is one replacement character |
| QueryLaws.BlankEach | validator/rancher_proxy.py:138-141 | a value is blank if and only if all its characters are white space, by code point |
| Pagination.GetAllPages | validator/rancher_client.py:150-171 | over a finite chain the loop ends and returns every dictionary of every page once, in page and position order, or nothing if any page failed |
| Pagination.CollectedInOrder | validator/rancher_client.py:158-171 | when the last page is good there is an order-preserving one-to-one index of the items onto all dictionaries of all pages, page before position; else nothing is returned |
| Pagination.TwoPagesWitness | validator/rancher_client.py:158-171 | a dictionary on each of two pages: both are collected, in page order |
| Pagination.EndsIffChain | validator/rancher_client.py:158-171 | the loop ends if and only if its requests form a finite chain |
| Pagination.EndsIffNoRepeat | validator/rancher_client.py:158-171 | with markers from a finite set s the loop ends if and only if none of the first size of s plus 2 requests is made twice, and then within size of s plus 1 requests |
| Pagination.EndsIffFiniteNoRepeat | validator/rancher_client.py:158-171 | for any upstream the loop ends if and only if it meets finitely many markers and asks for none twice |
| Pagination.ChainUnique | validator/rancher_client.py:158-171 | that chain is unique |
| Pagination.RepeatedMarkerNeverEnds | validator/rancher_client.py:158-171 | a repeated marker keeps the loop going for ever |
| Proxy.Handle | validator/rancher_proxy.py:114-233 | the early exits amount to one admission condition; bad gateway exactly for an admitted request whose upstream call fails |
| ProxyLaws.AdmitsIff | validator/rancher_proxy.py:114-211 | admitted if and only if it is a GET of one of the two paths with known parameters only, an id that is not blank for nodes, an allowed version, and a signature over path, first values in fixed order, and time stamp |
| ProxyLaws.AuthenticatedIff | validator/rancher_proxy.py:263-303 | all headers there, a time stamp within 60 s, the first metagraph entry of the hotkey a permitted validator, and the signature valid |
| ProxyLaws.AdmittedCall | validator/rancher_proxy.py:214-219 | an admitted request is answered with the clusters, or the nodes of the first id given |
| ProxyLaws.RequestBytes | validator/rancher_client.py:91-182 | the very bytes a client asks for and signs, for every call, marker and time stamp |
| Proxy.ClientRequestRead | validator/rancher_proxy.py:134-180 | the proxy reads a client's request as it was meant and refuses beforehand only a blank cluster id |
| Proxy.AuthAgreement | validator/rancher_proxy.py:176-189 | the rebuilt message is the signed one: admission is exactly a valid signature over the client's own bytes |
| Proxy.SignedMessageInjective | validator/rancher_client.py:91-109 | a signature fits one call, marker and time stamp only |
| Proxy.ProxyTransparent | validator/rancher_proxy.py:214-225 | a permitted reader collects exactly what the owner's client collects; a failed page leaves both with nothing |
| Proxy.ServedIsAuthentic | validator/rancher_proxy.py:263-303 | whoever is served is a registered validator with a fresh signature over the forwarded request |
| Chain.ChainState.ReadMetagraph | validator/chain_state.py:61-79 | a read replaces the snapshot, a failed one leaves it |
| Chain.ChainState.Emissions | validator/chain_state.py:81-98 | the loop gives each uid its last emission entry |
| Chain.ChainState.EmissionPoolUsd | validator/chain_state.py:138-154 | half the emitted alpha at the alpha price in USD, one dollar when something is missing, always positive |
| PriceFeed.PriceFeed.constructor | validator/price_feed.py:129-133 | only a positive cached price is kept |
| PriceFeed.PriceFeed.SeedTaoUsd | validator/price_feed.py:140-143 | only a positive price replaces the remembered one |
| PriceFeed.PriceFeed.SeedFromPublished | validator/price_feed.py:145-148 | the published price replaces the remembered one if it is usable |
| PriceFeed.PriceFeed.TaoUsd | validator/price_feed.py:155-185 | first usable of two services, else the remembered price; the answer is remembered and positive |
| PriceFeed.PriceFeed.AlphaToTao | validator/price_feed.py:187-217 | spot price after at most one re-read, else the pool service; failure means no positive spot price |
| PriceFeed.PriceFeed.UsdPerAlpha | validator/price_feed.py:219-221 | positive product, and the chain is not asked when TAO/USD failed |
| PriceLaws.FirstTaoIs | validator/price_feed.py:155-185 | TAO/USD is the first positive of Taostats, CoinGecko, the published price and the remembered one |
| PriceLaws.AlphaRateIs | validator/price_feed.py:187-217 | the alpha rate is the first positive of the spot price (read again only if it was zero), the pool service's price, and the quotient of its sides |
| PriceLaws.LatestRemembered | validator/price_feed.py:140-185 | the remembered price is the one of the latest event that brought any |
| PriceLaws.CachedRemembered | validator/price_feed.py:129-185 | until an event brings a price, the one from disk is remembered if it is positive |
| PriceFeed.PoolQuotientInverted | validator/price_feed.py:209-213 | the quotient fallback is the reciprocal of the pool's price, right if and only if both sides are equal |
| PriceFeed.PoolQuotientWitness | validator/price_feed.py:209-213 | a pool of 2 alpha and 1 TAO gives the rate 2 |
| PriceFeed.FailsOnlyUninformed | validator/price_feed.py:140-185 | the remembered price is absent or positive, and a call fails if and only if neither the disk nor any event before ever had a price |
| PriceFeed.NeverFailsAgain | validator/price_feed.py:150-185 | after one success no later call fails |
| CyclePrices.FallbackUsdPerAlpha | validator/validator.py:504-538 | succeeds exactly with a remembered or published TAO/USD and a published or spot alpha rate |
| CyclePrices.PricesForCycle | validator/validator.py:137-189 | which TAO/USD, USD per alpha, snapshot and pool come out, branch by branch; TAO/USD is never the zero of the error branch |
| PriceLaws.LivePrices | validator/validator.py:137-189 | with both prices in the first round: their product, and for the pool the first positive of a second round and the first |
| PriceLaws.FallbackPrices | validator/validator.py:504-538 | otherwise the published TAO/USD before the first round's, the published alpha rate before the spot price; skipped if and only if either is missing |
| PriceLaws.LastTaoIs | validator/validator.py:137-189 | which TAO/USD a cycle leaves behind, in either case |
| PriceLaws.PoolSnapshot | validator/chain_state.py:138-154 | the pool is taken from the snapshot that was read again, if it was, else from the cycle's own |
| PriceLaws.PoolIs | validator/chain_state.py:81-154 | twice the pool is last-entry emission times TAO/USD times spot price; one dollar without one of the three |
| PriceLaws.PoolWitness | validator/chain_state.py:81-154 | 100 alpha at 0.01 TAO and 400 dollars a TAO make a pool of 200 dollars; a repeated uid counts once |
| CyclePrices.SkippedIff | validator/validator.py:137-189 | a cycle is skipped if and only if a price is known from no source; otherwise prices and pool are positive, the one-dollar pool exactly without emission or spot price |
| CyclePrices.RateValueIrrelevant | validator/validator.py:137-189 | the value of the pool service's rate never reaches the pool |
| CyclePrices.NoTaoIff | validator/price_feed.py:150-185 | over every run of cycles, one is skipped for want of TAO/USD if and only if neither the disk nor any cycle up to it had a source; every other has a positive price and pool |
| CyclePrices.NeverSkippedForTaoAgain | validator/price_feed.py:150-185 | once a cycle had a TAO/USD price no later cycle is skipped for want of one |
| CyclePrices.PoolIsLinear | validator/chain_state.py:138-154 | with emission and spot price known the pool is proportional to TAO/USD |
| Cycle.InputsOf | validator/validator.py:216-281 | the miner loop records verdict or override and each counted class once with its total |
| Cycle.VectorOf | validator/validator.py:216-348 | from evidence to the padded split, paying by 12 x tempo seconds; nothing exactly for an empty metagraph |
| Cycle.VectorPaysByTempo | validator/validator.py:283-348 | within the pool, weight x pool x 3600 is hourly target x tenure x 12 x tempo for every ready non-owner, and zero for the others |
| WorthLaws.CyclePaysByTempo | validator/validator.py:283-348 | the same for the vector of a whole cycle, by the tempo read or 360, over the cycle's effective card and pool |
| WorthLaws.EpochWitness | validator/validator.py:283-290 | tempo 360 is 1.2 hours: eight H100 at 4.00 in a pool of 1000 dollars weigh 0.0384 |
| WorthLaws.OneNodeHourly | validator/validator.py:224-281 | a miner with one node, from labels to dollars: ready if eligible or the staging miner, paid count x price if the node counts at payout, else nothing |
| Cycle.NodesDealtOut | validator/validator.py:616-645 | nodes dealt out over two clusters are GPUs dealt out in the sense of the split law |
| Cycle.ClusterSplitNeutral | validator/validator.py:224-281 | from nodes to weights: a miner's nodes dealt out over two ready clusters under two hotkeys weigh together what they weighed, and nobody else's weight moves |
| Cycle.VectorDetermined | validator/validator.py:224-348 | the vector depends only on the answers and on which nodes are live at the readings, not on clocks beyond that nor on how classes are listed |
| Cycle.EarnsIff | validator/validator.py:224-281 | a miner earns if and only if it is eligible or the staging miner, and has counted GPUs of a priced class |
| Cycle.FrozenMinerGetsNothing | validator/validator.py:226-245 | a miner whose nodes are all stale when counted has weight zero, the staging miner included |
| Cycle.WeightMeansEvidence | validator/validator.py:224-281 | weight means a live node of eight GPUs of a priced class, ready at both readings, and an eligible cluster unless it is the staging miner |
| Cycle.BannedStagingMinerEarns | validator/validator.py:231-237 | with a banned cluster exactly the staging miner still earns |
| Cycle.EmptyVector | validator/validator.py:337-341 | scoring produces no vector exactly for an empty metagraph |
| Cycle.AlphaWorthEarnings | validator/chain_state.py:138-154 | while the pool suffices, a miner's share of the emission is worth exactly GPUs x price x hours |
| Cycle.UnknownPoolRecyclesNothing | validator/chain_state.py:138-154 | under the one-dollar pool earnings of a dollar or more leave nothing for the owner |
| Fleet.PotWithinFleet | validator/validator.py:224-281 | all miners together earn at most the card price of every GPU listed, each taken once, when any two miners that may be ready have first clusters with different ids |
| Fleet.TargetWithinTable | validator/miner_scoring.py:65-78 | one miner's hourly target is at most the value of its counted GPUs |
| Validator.Validator.constructor | validator/validator.py:57-85 | a fresh validator holds no card and no submission |
| Validator.Validator.CardStage | validator/validator.py:109-125 | an owner always has its own terms and publishes them, a reader has those of the last valid fetch or none |
| WorthLaws.TermsAre | validator/validator.py:109-125 | the owner scores with its own card, published floors and stored switches; a reader with the object it reads or the terms it held, and without both not at all |
| Validator.Validator.ScoreStage | validator/validator.py:125-355 | prices, inventory, scoring and submission after the card, with the explicit card, pool and vector |
| Validator.Validator.RunCycle | validator/validator.py:90-355 | one cycle ends early exactly without metagraph, evidence, card or prices or for an empty metagraph; otherwise it attempts the padded split over the explicit card and pool; what it remembers is one transition |
| ValidatorRuns.AcceptedSpaced | validator/validator.py:90-355 | over every run of cycles, of two accepted submissions the later has the greater epoch and keeps its rate limit's distance |
| ValidatorRuns.ReaderHolds | validator/validator.py:90-118 | over every run a reader holds the enveloped terms of its last valid fetch, or none |
| ValidatorRuns.AcceptedVectors | validator/validator.py:90-355 | over every run every accepted vector is normalised over the metagraph and determined by the reads, and a reader's is priced with the terms of its last valid fetch |

## Left out

- HTTP, TLS, sockets, threads, the object store and its signing, and the chain SDK: their outcomes are parameters of each step.
- The check of an sr25519 signature is a predicate over message, signature and hotkey; integer and hex parsing of headers and the version gate are parameters too.
- Dashboard, metrics, log lines, environment variables, `fleet_gpus` and `miner_shares`: output only.
- Parsing of time stamps, memory and CPU quantities, GPU labels and versions: the parsed values are inputs, as is the number `_extract_first` finds in a service's answer.
- Floating point: weights, prices and times are exact; NaN and infinities are not modelled.
- CardCycle.PublisherFloors: the default floor is three quarters of the card exactly; the code rounds it to four decimal digits, which belongs to the floating-point arithmetic left out here.
- PricingLaws.DefaultFloorsHarmless: for the unrounded default floor, for the same reason.
- Upper-casing of class names is ASCII; a request target with scheme or authority is not modelled.
- The `raw` emission array that is read when a metagraph has no neurons, the write side of disk caches, and the payout object's publication.
- Validator.Validator.RunCycle: dry runs, the payout publication and the dashboard are left out; the owner's put of the card may fail without any effect on the cycle, so its outcome is not part of the contract.
- The exceptions that the price requests let through (other than the feed's own error) end the process's cycle in the original and do not occur here.
- The dominant GPU class of a miner is only logged when a breakdown exists, so `Cycle.InputsOf` leaves it empty; the sorted order of a breakdown is any order.
- A JSON object's key order is kept by `CardLaws.Flipped`; the bytes of the printed JSON are not modelled.
- Scoring.ComputeWeights: the unused argument `usd_per_alpha` is not a parameter, because the code never reads it.
- Submission.NextAcceptance: assumes good block reads, an accepting chain and constant tempo and limit; other runs are covered by the safety lemmas only.
- Consensus.SameVector: one direction; unequal cards or pools may still give equal vectors, the exact condition for equal pay is `PricingLaws.OwnerReaderAgreement`.
- Attestation, deposits, demand-side pricing and earlier validator versions are not part of this model.
