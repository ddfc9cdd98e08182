# Mars Hub core logic in Dafny

A model of the logic at the heart of the Mars Hub Cosmos-SDK chain, and proofs about it:

- **Governance** (x/gov):
  - the custom `Tally`, where voting power is staked tokens plus tokens locked in the vesting contract, and a voting delegator overrides its validator for its own shares;
  - the paginated vesting-power query;
  - the `EndBlocker` proposal lifecycle, with deposit refunds and burns and the cached execution of the messages of a passing proposal;
  - the `TallyResult` query;
  - the strict schema checks on proposal and vote metadata.
- **Incentives** (x/incentives):
  - linear release of a schedule's coins;
  - the per-block release, its pro-rata split among validators, and its older variant;
  - creation and termination of schedules against the community pool;
  - the schedule store and its id counter, and the balance invariant;
  - genesis validation, import and export;
  - message and proposal checks;
  - the big-endian store keys.
- **Fund routing**:
  - the shuttle message server, which draws only the shortfall from the community pool and sends one ICS-20 transfer per coin;
  - the custom distribution `AllocateTokens`, which sends every non-`umars` fee to the community pool.
- **Utilities**: `SaturateSub`, the uint-list join and parse, and `Contains`.
- **Protocol Buffers wire format**, as the generated gogoproto code writes and reads it: varints, field tags, back-to-front marshalling into a sized buffer, the `Unmarshal` loops and unknown-field skipping. It covers the incentives query messages, the safety-fund spend proposal and the two shuttle remote-contract proposals.

Shared value types:

- `sdk.Coins` is a map from denom to a positive amount (`Coins`).
- `sdk.Dec` is an integer scaled by 10^18, with the SDK's round-half-to-even (`Dec`, `DecCoins`).
- Times are integer nanoseconds.
- Byte strings are sequences of 0..255 (`Bytes`).

Pure code is rendered as functions. Code that changes state is rendered as classes and methods, each proved against a function of the state it starts in. Keepers of other modules are parameters or plain state: bank balances, staking views, the wasm vesting query, ICA and IBC channels, and the message router.

Where a test file and the code disagree, the model follows the code:

- A tally below quorum burns the deposits (x/gov/keeper/tally.go:124-126). tally_test.go expects no burn.
- Proposal metadata with a key outside the six known ones is rejected (x/gov/types/metadata.go:48-53,67-69). So is metadata without authors. x/gov/keeper/msg_server_test.go:41-63 expects both to be accepted.
- `IterateSchedules` stops at the first callback that returns true; its doc comment says false.

One exception: `IncentivesKeeper.Keeper.CreateSchedule` uses the corrected counter (`IncentivesKeeper.Keeper.IncrementNextScheduleId`). It stores the new schedule under the counter's value before the increment, which is the id schedule_test.go expects. keeper.go:81-89 as written returns old + 1; the "## Findings" table gives the reasons.

## Model

| member | source | states |
|---|---|---|
| UtilsMath.SaturateSub | utils/math.go:10-12 | `coinsA.Sub(coinsA.Min(coinsB))` is total: the result is a valid coin set, so the subtraction never panics |
| UtilsMath.SaturateSubAmount | utils/math.go:5-12 | per denom the result is a − b when a ≥ b and 0 otherwise |
| UtilsMath.SaturateSubWithin | utils/math.go:10-12 | the result is at most a in every denom and holds no denom that a lacks |
| UtilsMath.SaturateSubAddMin | utils/math.go:10-12 | SaturateSub(a, b) + Min(a, b) == a |
| UtilsMath.SaturateSubSelf | utils/math.go:10-12 | SaturateSub(a, a) is the empty set |
| UtilsMath.SaturateSubNothing | utils/math.go:10-12 | SaturateSub(a, ∅) == a |
| UtilsMath.SaturateSubExample | utils/math.go:8-9 | the documented example {2A,3B,4C} − {1A,5B,3D} = {1A,4C} |
| UtilsStrconv.NatToString | utils/strconv.go:12-13 | the decimal printed by `fmt` for one number is non-empty and all digits |
| UtilsStrconv.DecimalRoundTrip | utils/strconv.go:12-13 | the value of the printed decimal is the number printed |
| UtilsStrconv.ParseUintRoundTrip | utils/strconv.go:21 | `strconv.ParseUint` accepts the printed decimal of any uint64 and returns that number |
| UtilsStrconv.Decimals | utils/strconv.go:12-13 | one decimal per number, in order |
| UtilsStrconv.ReplaceAppend | utils/strconv.go:13 | `strings.Replace(…, -1)` distributes over concatenation |
| UtilsStrconv.ReplaceDigits | utils/strconv.go:13 | replacing spaces leaves a string of digits unchanged |
| UtilsStrconv.ReplaceJoin | utils/strconv.go:13 | replacing the spaces of a space-joined list of decimals re-joins it with the delimiter |
| UtilsStrconv.JoinEnds | utils/strconv.go:13 | a join of decimals starts and ends with a digit, so trimming brackets stops at them |
| UtilsStrconv.ReplaceInSprint | utils/strconv.go:13 | after the replacement the printed slice is "[" + decimals joined by the delimiter + "]" |
| UtilsStrconv.TrimBrackets | utils/strconv.go:13 | `strings.Trim(…, "[]")` removes exactly the outer brackets of such a string |
| UtilsStrconv.UintArrayToStringIsJoin | utils/strconv.go:12-14 | `UintArrayToString(xs, d)` is the decimals of xs joined by d |
| UtilsStrconv.Index | utils/strconv.go:18 | `strings.Index` returns −1 or a position where the separator occurs |
| UtilsStrconv.IndexAfterDigits | utils/strconv.go:18 | in digits + sep + rest, a separator starting with a non-digit is found right after the digits |
| UtilsStrconv.IndexNone | utils/strconv.go:18 | such a separator does not occur inside a run of digits |
| UtilsStrconv.SplitJoin | utils/strconv.go:18 | splitting a join of decimals by that delimiter gives the decimals back |
| UtilsStrconv.StringToUintArray | utils/strconv.go:17-30 | the loop returns the parse of every piece of `strings.Split`; it succeeds iff every piece parses as a uint64, and then has one number per piece |
| UtilsStrconv.StringToUintArrayRoundTrip | utils/strconv.go:12-30 | parsing the printed form of a non-empty list with a non-empty, digit-free delimiter gives the list back |
| UtilsStrconv.EmptyListDoesNotRoundTrip | utils/strconv.go:18-23 | the empty list prints as "", whose one empty piece fails to parse |
| UtilsStrconv.LeadingZerosAccepted | utils/strconv.go:21 | "01" and "1" both parse to [1], so the parser is not injective |
| UtilsStrconv.UintArrayToStringThree | utils/strconv.go:12-14 | three numbers print as their decimals with the delimiter between them |
| UtilsStrconv.JoinThree | utils/strconv.go:13 | a three-piece join written out |
| UtilsStrconv.OneTwoThree | utils/strconv.go:13 | 1, 2 and 3 print as one digit each |
| UtilsStrconv.UintArrayToStringExample | utils/strconv.go:12-14 | `UintArrayToString([1,2,3], ",") == "1,2,3"` |
| UtilsStrconv.UintArrayToStringEmpty | utils/strconv.go:12-14 | the empty list prints as "" |
| UtilsStrconv.EmptyDelimiterEmptyString | utils/strconv.go:18-29 | with an empty delimiter `strings.Split("", "")` has no pieces, so "" parses to the empty list |
| UtilsCmp.Contains | utils/cmp.go:4-12 | true iff some element equals x; so false on the empty list, true on s + [x], and kept by every extension s + t |
| Bytes.BigEndian | x/incentives/types/keys.go:31 | `sdk.Uint64ToBigEndian` gives exactly n bytes |
| Bytes.FromBigEndian | x/incentives/types/keys.go:31 | the number a big-endian string denotes is below 256^n |
| Bytes.BigEndianRoundTrip | x/incentives/types/keys.go:31 | decoding the n-byte big-endian form of x < 256^n gives x |
| Bytes.BigEndianInjective | x/incentives/types/keys.go:31 | equal encodings of one width come from equal numbers |
| Bytes.LessAppend | x/incentives/types/keys.go:31 | lexicographic order of two equal-length strings each extended by one byte |
| Bytes.BigEndianOrder | x/incentives/types/keys.go:31 | big-endian encodings compare in byte order exactly as the numbers compare |
| Bytes.LessIrreflexive | x/incentives/types/keys.go:31 | no byte string is below itself |
| IncentivesKeys.GetScheduleKey | x/incentives/types/keys.go:29-32 | the key is 9 bytes: 0x01 then the big-endian id |
| IncentivesKeys.GetScheduleKeyInjective | x/incentives/types/keys.go:30-32 | two ids share a key iff they are equal |
| IncentivesKeys.GetScheduleKeyOrder | x/incentives/types/keys.go:30-32 | keys compare in byte order exactly as their ids compare |
| IncentivesKeys.NextIdKeyApart | x/incentives/types/keys.go:22-26 | no schedule key equals or starts with the next-id key 0x00; every one starts with 0x01 |
| Coins.Extensional | x/incentives/keeper/invariants.go:29 | two valid coin sets with the same amount in every denom are equal, as `Coins.IsEqual` compares them |
| Coins.AllGTEByAmounts | utils/math.go:11 | `IsAllGTE` holds iff every denom of b is covered by a |
| Coins.Add | x/incentives/keeper/reward.go:37 | `Coins.Add` adds amounts denom by denom and keeps the set valid |
| Coins.Sub | x/incentives/types/store.go:24 | `Coins.Sub` succeeds iff a covers b, and then subtracts denom by denom; otherwise it is the SDK panic |
| Coins.Min | utils/math.go:11 | `Coins.Min` takes the smaller amount per denom |
| Coins.AddCommutes | x/incentives/keeper/invariants.go:21-24 | coin addition is commutative |
| Coins.AddAssociates | x/incentives/keeper/invariants.go:21-24 | coin addition is associative |
| Coins.AddRotate | x/incentives/keeper/invariants.go:21-24 | a + (b + c) == (c + a) + b |
| Coins.AddEmpty | x/incentives/keeper/reward.go:31 | the empty set is the unit of addition |
| Coins.SubAdd | x/incentives/keeper/reward.go:43 | (a + b) − b == a |
| Coins.WithinDifference | utils/math.go:11 | what fits in a − b also fits in a |
| Coins.AddSub | x/incentives/types/store.go:24 | (a − b) + b == a when a covers b |
| Coins.Sum | x/incentives/keeper/invariants.go:20-24 | the sum of a list of valid coin sets is valid |
| Coins.SumAppend | x/incentives/keeper/invariants.go:20-24 | the sum of a concatenation is the sum of the sums |
| Coins.SumSingle | x/incentives/keeper/invariants.go:20-24 | the sum of one set is that set |
| Coins.SumRemove | x/incentives/keeper/invariants.go:20-24 | taking one entry out of a list removes exactly its amounts from the sum |
| Coins.AddShuffle | x/incentives/keeper/invariants.go:21-24 | (a + x) + b == x + (a + b) |
| Coins.SumPermutation | x/incentives/keeper/invariants.go:21-24 | the sum does not depend on the order of the list |
| Coins.FromSeq | x/shuttle/keeper/msg_server.go:144-164 | a list of coins with distinct denoms and positive amounts read as a coin set holds each listed coin and nothing else |
| Dec.TruncDiv | x/gov/keeper/tally.go:84 | `big.Int.Quo` truncates toward zero: the remainder is smaller than the divisor and has the dividend's sign |
| Dec.TruncDivBounds | x/gov/keeper/tally.go:84 | the same bounds, case by case on the signs |
| Dec.ChopNonNeg | x/gov/keeper/tally.go:84 | `chopPrecisionAndRound` on a non-negative value rounds to the nearest multiple of 10^18, ties to even |
| Dec.ChopRound | x/gov/keeper/tally.go:84 | the same rounding applied to the magnitude of any value |
| Dec.TruncateInt | x/incentives/types/store.go:31 | `TruncateInt` of a non-negative Dec is the floor of its value |
| Dec.ChopExact | x/gov/keeper/tally.go:84 | an exact multiple of 10^18 rounds to itself |
| Dec.ChopNonNegMonotone | x/gov/keeper/tally.go:124 | rounding is monotone on non-negative values |
| Dec.ChopMonotone | x/gov/keeper/tally.go:124 | rounding is monotone |
| Dec.TruncDivMonotone | x/gov/keeper/tally.go:124 | truncated division by a positive divisor is monotone |
| Dec.QuoNonNegative | x/gov/keeper/tally.go:124 | `Dec.Quo` of a non-negative by a positive value is non-negative, and 0 for a zero dividend |
| Dec.MulByInt | x/gov/keeper/tally.go:152 | multiplying by an integer Dec is exact |
| Dec.QuoByInt | x/incentives/types/store.go:30 | dividing by an integer Dec is one rounded division |
| Dec.TruncateBetween | x/incentives/types/store.go:31 | a value between m and m + 1 truncates to m |
| Dec.TruncateFromInt | x/incentives/types/store.go:31 | an integer Dec truncates to itself |
| DecCoins.FromCoins | x/incentives/types/store.go:30 | `NewDecCoinsFromCoins` keeps the denoms |
| DecCoins.FromCoinsAmount | x/incentives/types/store.go:30 | each amount becomes the same integer as a Dec |
| DecCoins.MulDec | x/incentives/types/store.go:30 | `MulDec` of a valid set is valid and adds no denom |
| DecCoins.MulDecAmount | x/incentives/types/store.go:30 | each amount is multiplied with `Dec.Mul` |
| DecCoins.QuoDec | x/incentives/types/store.go:30 | `QuoDec` of a valid set is valid and adds no denom |
| DecCoins.QuoDecAmount | x/incentives/types/store.go:30 | each amount is divided with `Dec.Quo` |
| DecCoins.TruncateDecimal | x/incentives/types/store.go:31 | `TruncateDecimal` keeps a valid set with no new denom |
| DecCoins.TruncateDecimalAmount | x/incentives/types/store.go:31 | each amount is truncated with `TruncateInt` |
| DecCoins.ScaleAndTruncate | x/incentives/types/store.go:30-31 | the per-denom amount of truncate(c × x / y) is the Dec expression on that denom alone |
| IncentivesStore.Remaining | x/incentives/keeper/invariants.go:22 | `TotalAmount.Sub(ReleasedAmount)` of a schedule that has not over-released: valid, and adding the released amount back gives the total |
| IncentivesStore.SetMin | x/incentives/keeper/keeper.go:117-129 | the smallest id of a non-empty id set is in it and below every other |
| IncentivesStore.MinExists | x/incentives/keeper/keeper.go:117-129 | every non-empty id set has a least element |
| IncentivesStore.MinOfInsert | x/incentives/keeper/keeper.go:117-129 | the least of k and the minimum of the other ids is the minimum of all |
| IncentivesStore.SortedIds | x/incentives/keeper/keeper.go:117-129 | the prefix iterator's order: ascending, listing every stored id exactly once |
| IncentivesStore.InOrder | x/incentives/keeper/keeper.go:117-129 | the stored schedules in iteration order, one per id |
| IncentivesStore.Lookup | x/incentives/keeper/keeper.go:96-107 | the schedules stored under a list of ids, in that order |
| IncentivesStore.SumOver | x/incentives/keeper/invariants.go:20-24 | the added-up coin sets of a set of ids is valid |
| IncentivesStore.SumOverRemove | x/incentives/keeper/invariants.go:20-24 | any id's coins can be taken out of the sum first |
| IncentivesStore.SumOverFrame | x/incentives/keeper/invariants.go:20-24 | the sum over a set of ids reads only the entries of that set |
| IncentivesStore.RemainingById | x/incentives/keeper/invariants.go:22 | the remainder of every stored schedule, by id |
| IncentivesStore.Unreleased | x/incentives/keeper/invariants.go:20-24 | the sum of `TotalAmount − ReleasedAmount` over the whole store is a valid coin set |
| IncentivesStore.UnreleasedDelete | x/incentives/keeper/keeper.go:132-136 | deleting a schedule keeps the store consistent and takes exactly its remainder out of the sum |
| IncentivesStore.UnreleasedUpdate | x/incentives/keeper/keeper.go:109-113 | overwriting a schedule swaps its old remainder for the new one in the sum |
| IncentivesStore.UnreleasedInsert | x/incentives/keeper/keeper.go:109-113 | storing a schedule under a fresh id adds its remainder to the sum |
| IncentivesStore.Remainders | x/incentives/keeper/invariants.go:22 | one remainder per schedule of a list, in order |
| IncentivesStore.SumOverAnyOrder | x/incentives/keeper/invariants.go:21-24 | adding up in any order that lists every id once gives the same sum |
| IncentivesStore.DropLast | x/incentives/keeper/invariants.go:21-24 | without its last id, a list of distinct ids lists the rest of the set |
| IncentivesStore.UnreleasedInOrder | x/incentives/keeper/invariants.go:20-24 | the invariant's fold over the schedules in any order that lists each once equals the store's unreleased sum |
| IncentivesStore.UnreleasedIterationOrder | x/incentives/keeper/invariants.go:20-24 | the fold in iteration order equals the store's unreleased sum |
| IncentivesSchedule.Unlocked | x/incentives/types/store.go:23-31 | the cumulative unlocked amount (everything after the end, otherwise the Dec-scaled and truncated linear share) is a valid coin set |
| IncentivesSchedule.UnlockedOf | x/incentives/types/store.go:27-31 | the same computation on the fields it reads is a valid coin set |
| IncentivesSchedule.GetBlockReward | x/incentives/types/store.go:18-34 | before the start time the reward is empty; from then on it is defined exactly when the linear branch does not divide by a zero duration and the unlocked amount covers what was released, and then reward + released == unlocked |
| IncentivesSchedule.LinearRelease | x/incentives/types/store.go:27-33 | the reference rule floor(total × elapsed / duration) per denom is a valid coin set |
| IncentivesSchedule.LinearSteps | x/incentives/types/store.go:27-30 | the Dec steps `MulDec(elapsed).QuoDec(total)` for one denom are one rounding of a × e × 10^36 / T |
| IncentivesSchedule.ScaledAtMostTotal | x/incentives/types/store.go:30 | that scaled quotient is at most the scaled total when e ≤ T |
| IncentivesSchedule.RoundedAtMost | x/incentives/types/store.go:30-31 | rounding then truncating a scaled amount no larger than a × 10^36 gives at most a |
| IncentivesSchedule.LinearAtMostTotal | x/incentives/types/store.go:30-31 | the linear amount never exceeds the total it is taken from |
| IncentivesSchedule.LinearAtEnd | x/incentives/types/store.go:30-31 | at elapsed == duration the linear amount is exactly the total |
| IncentivesSchedule.RoundedAtLeast | x/incentives/types/store.go:30-31 | rounding a scaled amount of at least m × 10^36 gives at least m × 10^18 |
| IncentivesSchedule.RoundedBelow | x/incentives/types/store.go:30-31 | rounding a scaled amount half a unit below (m + 1) × 10^36 stays below (m + 1) × 10^18 |
| IncentivesSchedule.LinearIsFloor | x/incentives/types/store.go:27-31 | for durations below 2 × 10^18 ns the Dec computation is exactly floor(a × e / T) |
| IncentivesSchedule.UnlockedIsLinear | x/incentives/types/store.go:27-31 | within the window the unlocked amount equals the reference `LinearRelease` |
| IncentivesSchedule.UnlockedIsLinearAt | x/incentives/types/store.go:27-31 | the same, for one denom |
| IncentivesSchedule.LinearReleaseAmount | x/incentives/types/store.go:27-31 | the reference rule per denom is floor(total × (t − start) / (end − start)) |
| IncentivesSchedule.UnlockedAmount | x/incentives/types/store.go:27-31 | within the window each denom unlocks its Dec share of the total |
| IncentivesSchedule.UnlockedSteps | x/incentives/types/store.go:27-31 | per denom the unlocked amount is `TruncateInt(Quo(Mul(total, elapsed), duration))` |
| IncentivesSchedule.UnlockedOfSteps | x/incentives/types/store.go:27-31 | the same on the fields alone |
| IncentivesSchedule.LinearStepsAt | x/incentives/types/store.go:27-31 | that Dec expression is the share of the denom's total |
| IncentivesSchedule.ShareMonotone | x/incentives/types/store.go:27-31 | a later elapsed time never gives a smaller share |
| IncentivesSchedule.UnlockedAtMostTotal | x/incentives/types/store.go:23-31 | nothing unlocks beyond the total amount |
| IncentivesSchedule.RewardAtMostUnreleased | x/incentives/types/store.go:33 | a block reward never exceeds total − released |
| IncentivesSchedule.RewardContinuousAtEnd | x/incentives/types/store.go:23-33 | at t == end the linear branch already gives total − released, the same as one tick later |
| IncentivesSchedule.UnlockedMonotone | x/incentives/types/store.go:23-31 | later times never unlock less |
| IncentivesSchedule.UnlockedMonotoneAt | x/incentives/types/store.go:23-31 | the same, for one denom |
| IncentivesSchedule.UnlockedMonotoneLinear | x/incentives/types/store.go:27-31 | the same, inside the window |
| IncentivesSchedule.ShareMonotoneAt | x/incentives/types/store.go:27-31 | the share of one denom grows with time |
| IncentivesSchedule.ShareAtMostTotalAt | x/incentives/types/store.go:27-31 | the share of one denom is between 0 and its total |
| IncentivesSchedule.ShareAtEndAt | x/incentives/types/store.go:27-31 | at the end the share of one denom is its total |
| IncentivesSchedule.ShareIsFloorAt | x/incentives/types/store.go:27-31 | for durations below 2 × 10^18 ns the share of one denom is the floor of the linear share |
| IncentivesSchedule.ReleaseThenLater | x/incentives/types/store.go:18-33 | once a block reward is added to the released amount, asking again at the same or a later time never panics |
| IncentivesSchedule.UnlockedIgnoresReleased | x/incentives/types/store.go:23-31 | the unlocked amount does not depend on what was released |
| IncentivesSchedule.RewardFromUnlocked | x/incentives/types/store.go:33 | the reward is unlocked − released |
| IncentivesSchedule.TestScheduleLinearFirst | x/incentives/types/store_test.go:35-38 | the reference rule gives 4114umars and 23137uastro at 13333 s |
| IncentivesSchedule.TestScheduleUnlockedFirst | x/incentives/types/store_test.go:35-38 | so does the SDK computation |
| IncentivesSchedule.TestScheduleLinearSecond | x/incentives/types/store_test.go:44-47 | the reference rule has unlocked 11066umars and 62228uastro at 18964 s |
| IncentivesSchedule.TestScheduleUnlockedSecond | x/incentives/types/store_test.go:44-47 | so does the SDK computation |
| IncentivesSchedule.FirstReleaseExample | x/incentives/types/store_test.go:35-38 | the first reward of the test schedule is 4114umars and 23137uastro |
| IncentivesSchedule.SecondReleaseExample | x/incentives/types/store_test.go:44-47 | after it, the reward at 18964 s is 6952umars and 39091uastro |
| IncentivesSchedule.SecondReleaseSub | x/incentives/types/store_test.go:44-47 | 11066umars,62228uastro − 4114umars,23137uastro = 6952umars,39091uastro |
| IncentivesSchedule.LaterScheduleUnlocked | x/incentives/keeper/reward_test.go:261-263 | the second schedule has unlocked 2642umars at 18964 s |
| IncentivesSchedule.SingleDenomUnlocked | x/incentives/types/store.go:27-31 | a single-denom schedule unlocks one coin of the floor of its linear share |
| IncentivesSchedule.LaterScheduleExample | x/incentives/keeper/reward_test.go:261-263 | its block reward at 18964 s is 2642umars |
| IncentivesSchedule.BeforeStartExample | x/incentives/types/store.go:19-21 | one second before the start nothing is released |
| IncentivesSchedule.FloorExample | x/incentives/types/store.go:10 | floor(a × e / T) for times in whole seconds read as nanoseconds |
| IncentivesKeeper.Powers | x/incentives/keeper/reward.go:71-74 | the validators' voting powers, in vote order |
| IncentivesKeeper.Paired | x/incentives/keeper/reward.go:81-92 | one reward log entry per validator, pairing its address with its share, in vote order |
| IncentivesKeeper.FirstStop | x/incentives/keeper/keeper.go:122-129 | the position of the first schedule at which the callback returns true (none before it), or the length when none does |
| IncentivesKeeper.SumRemaining | x/incentives/keeper/invariants.go:20-24 | the invariant's loop adds up `TotalAmount − ReleasedAmount` of the schedules in order |
| IncentivesKeeper.InOrderSound | x/incentives/keeper/keeper.go:117-129 | every schedule of a consistent store, in iteration order, owes a non-negative amount |
| IncentivesKeeper.Visited | x/incentives/keeper/keeper.go:122-129 | the schedules handed to the callback are a prefix of the iteration, ending at the first one that returns true |
| IncentivesKeeper.VisitUntilStop | x/incentives/keeper/keeper.go:122-129 | the `for … break` loop visits exactly `Visited` |
| IncentivesKeeper.ReleaseKeepsTimes | x/incentives/keeper/reward.go:32-48 | the release pass keeps every schedule's id and times |
| IncentivesKeeper.RemainingFresh | x/incentives/keeper/schedule.go:18-24 | a schedule that has released nothing has its whole total left |
| IncentivesKeeper.CreateKeepsInvariant | x/incentives/keeper/invariants.go:18-38 | storing a fresh schedule under the counter raises the unreleased sum by exactly its total, keeps ids below the counter and keeps times ordered |
| IncentivesKeeper.TerminateKeepsInvariant | x/incentives/keeper/invariants.go:18-38 | a termination that finds every id refunds no more than the module holds, and balance − refund is what the remaining schedules have left |
| IncentivesKeeper.SumRemaindersStep | x/incentives/keeper/invariants.go:21-24 | one more schedule adds its remainder to the invariant's sum |
| IncentivesKeeper.PassPrefix | x/incentives/keeper/reward.go:32-48 | the preconditions of the pass hold for every prefix of the order |
| IncentivesKeeper.PrefixPass | x/incentives/keeper/reward.go:32-48 | the pass of reward.go over the first i ids keeps the store consistent and the total valid |
| IncentivesKeeper.LegacyPrefixPass | x/incentives/keeper/release.go:24-36 | the same for the pass of release.go |
| IncentivesKeeper.PrefixPassNext | x/incentives/keeper/reward.go:32-48 | the callback on the next id sees its schedule as it was before the pass, and the pass over one more id is one more `Step` |
| IncentivesKeeper.LegacyPrefixPassNext | x/incentives/keeper/release.go:24-36 | the same for the pass of release.go |
| IncentivesKeeper.StoreReady | x/incentives/keeper/reward.go:32-33 | the iteration order of a store with ordered times, with each schedule's reward, meets the pass's preconditions |
| IncentivesKeeper.PassUpTo | x/incentives/keeper/reward.go:32-48 | the pass of reward.go over the first i ids in iteration order keeps the store consistent |
| IncentivesKeeper.LegacyPassUpTo | x/incentives/keeper/release.go:24-36 | the same for release.go |
| IncentivesKeeper.PrefixPassEnds | x/incentives/keeper/reward.go:30-48 | the pass over no ids starts from the store, empty ids and empty total; over all of them it is the whole pass |
| IncentivesKeeper.LegacyPrefixPassEnds | x/incentives/keeper/release.go:23-36 | the same for release.go |
| IncentivesKeeper.PassUpToEnds | x/incentives/keeper/reward.go:30-48 | the same in iteration order, and a panicking reward of any schedule makes the whole pass panic |
| IncentivesKeeper.LegacyPassUpToEnds | x/incentives/keeper/release.go:23-36 | the same for release.go |
| IncentivesKeeper.PassUpToSnoc | x/incentives/keeper/reward.go:32-48 | one more id in iteration order is one more `Step` on the untouched schedule, with a reward that fits it |
| IncentivesKeeper.LegacyPassUpToSnoc | x/incentives/keeper/release.go:24-36 | the same for release.go |
| IncentivesKeeper.ReleaseKeepsInvariant | x/incentives/keeper/invariants.go:18-38 | a release pass pays out no more than the module holds, and balance − released total is what the schedules have left; with an empty total the invariant holds unchanged |
| IncentivesKeeper.Keeper.constructor | x/incentives/keeper/keeper.go:64-73 | a fresh keeper has no counter, no schedules and empty balances |
| IncentivesKeeper.Keeper.GetNextScheduleId | x/incentives/keeper/keeper.go:64-73 | the stored counter, or `None` for the panic of a counter that was never set |
| IncentivesKeeper.Keeper.SetNextScheduleId | x/incentives/keeper/keeper.go:75-79 | the counter becomes id and nothing else changes, so a later Get returns id |
| IncentivesKeeper.Keeper.IncrementNextScheduleIdAsWritten | x/incentives/keeper/keeper.go:81-89 | as written: stores old + 1 and returns old + 1, the new value; panics when unset |
| IncentivesKeeper.Keeper.IncrementNextScheduleId | x/incentives/keeper/keeper.go:81-89 | corrected: stores old + 1 and returns old, the id it hands out; panics when unset |
| IncentivesKeeper.Keeper.GetSchedule | x/incentives/keeper/keeper.go:95-107 | found iff the id is stored, and then the stored schedule |
| IncentivesKeeper.Keeper.SetSchedule | x/incentives/keeper/keeper.go:109-113 | the schedule is stored under its id; every other id and all balances are unchanged |
| IncentivesKeeper.Keeper.DeleteSchedule | x/incentives/keeper/keeper.go:132-136 | the id is removed; every other id and all balances are unchanged |
| IncentivesKeeper.Keeper.IterateSchedules | x/incentives/keeper/keeper.go:115-130 | the callback sees the schedules in ascending id order up to and including the first for which it returns true |
| IncentivesKeeper.Keeper.DistributeFromFeePool | x/incentives/keeper/schedule.go:28-31 | the draw succeeds iff the community pool and the distribution module cover the amount; then the amount moves to the incentives module, otherwise nothing changes |
| IncentivesKeeper.Keeper.FundCommunityPool | x/incentives/keeper/schedule.go:54-57 | the refund succeeds iff the module covers the amount; then it moves to the distribution module and the community pool, otherwise nothing changes |
| IncentivesKeeper.Keeper.SendToDistribution | x/incentives/keeper/reward.go:57-60 | the module-to-module send succeeds iff the module covers the amount, and moves exactly that amount |
| IncentivesKeeper.Keeper.CreateSchedule | x/incentives/keeper/schedule.go:15-34 | with the counter unset it panics; otherwise, using the corrected counter, the counter advances by one and {id = the counter before the increment, start, end, total = amount, released = ∅} is stored; the pool draw moves exactly the amount, and when it fails the error is returned with the id bump and the stored schedule kept; a created schedule keeps the invariant |
| IncentivesKeeper.Keeper.TerminateSchedules | x/incentives/keeper/schedule.go:40-60 | deletes the listed schedules in order; the first missing or repeated id fails with the earlier deletions kept and nothing refunded; otherwise Σ(total − released) goes back to the pool, the counter is untouched, and the invariant is kept |
| IncentivesKeeper.Keeper.TotalUnreleasedIncentives | x/incentives/keeper/invariants.go:18-38 | the expected total is the store's unreleased sum, and the invariant is broken iff the module balance differs from it |
| IncentivesKeeper.Keeper.AllocateToValidators | x/incentives/keeper/reward.go:71-92 | the rewards handed out are exactly the pro-rata `Allocate` of the total over the votes, in vote order; a panicking split changes nothing |
| IncentivesKeeper.Keeper.ReleaseOne | x/incentives/keeper/reward.go:33-47 | one callback of reward.go is one `Step` of the pass on the store, ids and total |
| IncentivesKeeper.Keeper.ReleaseOneLegacy | x/incentives/keeper/release.go:25-35 | one callback of release.go is one `LegacyStep` |
| IncentivesKeeper.Keeper.ReleaseSchedules | x/incentives/keeper/reward.go:30-48 | the loop succeeds iff the pass does, leaving the pass's store, ids and total |
| IncentivesKeeper.Keeper.ReleaseBlockReward | x/incentives/keeper/reward.go:22-95 | after the pass: an empty total returns at once; otherwise the total moves from the module to distribution (a shortfall panics) and is split among validators; the result is the pass's ids and total; under the invariant the send never fails and the invariant holds afterwards |
| IncentivesKeeper.Keeper.ReleaseSchedulesLegacy | x/incentives/keeper/release.go:22-36 | the loop of release.go succeeds iff its pass does, adding every reward, empty or not |
| IncentivesKeeper.Keeper.ReleaseBlockRewardLegacy | x/incentives/keeper/release.go:17-67 | as reward.go, except that a failed send changes nothing and is ignored, the split going ahead |
| IncentivesKeeper.Keeper.InitGenesis | x/incentives/keeper/genesis.go:13-24 | every schedule is stored first to last (a repeated id keeps the last), then the counter is overwritten |
| IncentivesKeeper.Keeper.ExportGenesis | x/incentives/keeper/genesis.go:27-40 | the counter and the stored schedules in iteration order; it reads only the state, so two exports agree |
| IncentivesRelease.Advance | x/incentives/keeper/reward.go:43 | raising the released amount by r keeps the schedule's id and total |
| IncentivesRelease.RewardFits | x/incentives/keeper/reward.go:33-45 | every reward `GetBlockReward` returns fits its schedule: adding it never releases more than the total |
| IncentivesRelease.BlockRewards | x/incentives/keeper/reward.go:33 | one `GetBlockReward` per listed schedule, in order |
| IncentivesRelease.BlockRewardsFit | x/incentives/keeper/reward.go:33-45 | all those rewards fit their schedules |
| IncentivesRelease.Step | x/incentives/keeper/reward.go:33-45 | one callback: defined iff the reward is; the store stays consistent, loses no id but its own, and leaves every other schedule untouched |
| IncentivesRelease.DeleteConsistent | x/incentives/keeper/reward.go:40-41 | deleting keeps the store consistent |
| IncentivesRelease.UpdateConsistent | x/incentives/keeper/reward.go:42-44 | saving a schedule under its own id keeps the store consistent |
| IncentivesRelease.ReleaseAll | x/incentives/keeper/reward.go:30-48 | the whole pass keeps the store consistent, adds no id and leaves unlisted schedules untouched |
| IncentivesRelease.AllFitPrefix | x/incentives/keeper/reward.go:32-48 | dropping the last id keeps the pass's preconditions |
| IncentivesRelease.ReleaseAllLast | x/incentives/keeper/reward.go:32-48 | the pass over a non-empty order is the pass over all but the last id, then one `Step` on the last, which the shorter pass left as it was |
| IncentivesRelease.LegacyReleaseAllLast | x/incentives/keeper/release.go:24-36 | the same for release.go |
| IncentivesRelease.ReleaseAllSucceeds | x/incentives/keeper/reward.go:32-48 | the pass panics iff some schedule's reward panics |
| IncentivesRelease.AllSomeSplit | x/incentives/keeper/reward.go:32-48 | all rewards are defined iff all but the last are and the last is |
| IncentivesRelease.Values | x/incentives/keeper/reward.go:37 | the rewards as coin sets, in order |
| IncentivesRelease.ReleaseAllIds | x/incentives/keeper/reward.go:30-38 | the reported ids are exactly the schedules with a non-empty reward, in store order |
| IncentivesRelease.AllFitValid | x/incentives/keeper/reward.go:33 | every reward that fits is a valid coin set |
| IncentivesRelease.ValuesLast | x/incentives/keeper/reward.go:37 | the sum of the rewards is the sum of all but the last plus the last |
| IncentivesRelease.ReleaseAllTotal | x/incentives/keeper/reward.go:31-38 | the returned total is the sum of the rewards of all schedules (empty ones add nothing) |
| IncentivesRelease.ReleaseAllReports | x/incentives/keeper/reward.go:30-38 | both together: ids of the non-empty rewards in store order, total = sum of the rewards |
| IncentivesRelease.ReleaseAllConserves | x/incentives/keeper/invariants.go:18-38 | unreleased(after) + total == unreleased(before): what leaves the schedules is exactly what is released |
| IncentivesRelease.StepConserves | x/incentives/keeper/reward.go:33-45 | one callback moves coins from the schedules into the total exactly |
| IncentivesRelease.EndedConserves | x/incentives/keeper/reward.go:40-41 | deleting an ended schedule moves its whole remainder into the total |
| IncentivesRelease.RunningConserves | x/incentives/keeper/reward.go:42-44 | advancing a running schedule by r moves r from its remainder into the total |
| IncentivesRelease.RemainingAdvance | x/incentives/keeper/reward.go:43 | releasing r lowers the remainder by exactly r |
| IncentivesRelease.ReleaseAllEffect | x/incentives/keeper/reward.go:40-45 | after the pass each listed schedule is deleted if now > EndTime, and otherwise has its released amount raised by exactly its reward |
| IncentivesRelease.StepEffect | x/incentives/keeper/reward.go:40-45 | the same for one callback |
| IncentivesRelease.NoPanicWhenRewardsDefined | x/incentives/keeper/reward.go:32-48 | when no reward panics, neither does the pass |
| IncentivesRelease.LegacyStep | x/incentives/keeper/release.go:25-35 | one callback of release.go keeps the store consistent and leaves other schedules untouched |
| IncentivesRelease.LegacyReleaseAll | x/incentives/keeper/release.go:22-36 | the pass of release.go keeps the store consistent and leaves unlisted schedules untouched |
| IncentivesRelease.LegacyAgrees | x/incentives/keeper/release.go:24-36 | release.go's pass fails iff reward.go's does and leaves the same store and total: adding an empty reward changes nothing |
| IncentivesAllocation.PowerSumAppend | x/incentives/keeper/reward.go:71-74 | the power sum of a list extended by p grows by p |
| IncentivesAllocation.Share | x/incentives/keeper/reward.go:85-86 | `remaining.MulDec(power).QuoDec(totalPower)` is a valid DecCoins |
| IncentivesAllocation.ShareAmount | x/incentives/keeper/reward.go:86 | per denom, the share is the power's fraction of the remainder, rounded half to even |
| IncentivesAllocation.RoundedFractionAtMost | x/incentives/keeper/reward.go:86 | a rounded fraction p/t ≤ 1 of a is at most a |
| IncentivesAllocation.ShareAmountAtMost | x/incentives/keeper/reward.go:86 | per denom, a share never exceeds the remainder |
| IncentivesAllocation.ShareAtMostRemainder | x/incentives/keeper/reward.go:86-89 | a share never exceeds the remainder, so the following `Sub` cannot panic |
| IncentivesAllocation.ShareOfAllAmount | x/incentives/keeper/reward.go:86 | per denom, the whole remaining power takes the whole remainder |
| IncentivesAllocation.RoundedWhole | x/incentives/keeper/reward.go:86 | the rounded fraction t/t of a is a |
| IncentivesAllocation.ShareOfAll | x/incentives/keeper/reward.go:86 | the validator holding all the remaining power takes all the remaining coins |
| IncentivesAllocation.Allocate | x/incentives/keeper/reward.go:81-92 | the split gives one valid share per validator, in vote order |
| IncentivesAllocation.AllocateSucceeds | x/incentives/keeper/reward.go:81-92 | the split panics iff the last validator has zero power, which is a `QuoDec` by zero |
| IncentivesAllocation.PowerSumBounds | x/incentives/keeper/reward.go:71-74 | each power is at most the total |
| IncentivesAllocation.AllocateSumsToTotal | x/incentives/keeper/reward.go:81-92 | with at least one validator, the shares add up exactly to the total: the last validator takes the remainder |
| IncentivesAllocation.AllocateCons | x/incentives/keeper/reward.go:85-89 | the split starts with the first share and continues with the split of the remainder among the rest |
| IncentivesAllocation.AllocateWithinTotal | x/incentives/keeper/reward.go:81-92 | every share is within the total |
| IncentivesAllocation.TotalPower | x/incentives/keeper/reward.go:71-74 | the power loop returns the sum of the powers |
| IncentivesAllocation.PrefixedTwice | x/incentives/keeper/reward.go:81-92 | prefixing shares twice is prefixing their concatenation |
| IncentivesAllocation.AllocateRewards | x/incentives/keeper/reward.go:81-92 | the allocation loop returns exactly `Allocate` of the total as DecCoins |
| IncentivesGenesis.Validate | x/incentives/types/genesis.go:27-54 | the loop with its `seenIds` set returns exactly `FirstError` of the schedules |
| IncentivesGenesis.FirstErrorNoneIff | x/incentives/types/genesis.go:27-54 | no error iff every schedule passes its own checks, no id was seen before, and the ids are distinct |
| IncentivesGenesis.ValidateIffValid | x/incentives/types/genesis.go:13-54 | validation succeeds iff every schedule has id < next, distinct ids, end > start, a non-empty total and total ≥ released |
| IncentivesGenesis.FirstErrorIsFirst | x/incentives/types/genesis.go:29-50 | the error reported is that of the first schedule in list order breaking a rule, given the ids seen before it |
| IncentivesGenesis.IdsOfCons | x/incentives/types/genesis.go:50 | the ids seen after j + 1 schedules are the first id and those of the next j |
| IncentivesGenesis.DefaultGenesisValid | x/incentives/types/genesis.go:5-11 | the default state {next = 1, no schedules} is valid |
| IncentivesGenesis.MockFirstScheduleOk | x/incentives/types/genesis_test.go:14-35 | the first schedule of the test state passes every check |
| IncentivesGenesis.MockGenesisValid | x/incentives/types/genesis_test.go:73-77 | the test state is valid |
| IncentivesGenesis.NextIdTooSmallExample | x/incentives/types/genesis_test.go:37-42 | schedule 3 renumbered 5 fails the id check first |
| IncentivesGenesis.DuplicateIdExample | x/incentives/types/genesis_test.go:44-49 | schedule 3 renumbered 2 fails as a duplicate |
| IncentivesGenesis.EndTimeEarlierThanStartExample | x/incentives/types/genesis_test.go:51-56 | schedule 3 ending at its start fails the time check |
| IncentivesGenesis.ZeroTotalAmountExample | x/incentives/types/genesis_test.go:58-64 | schedule 3 with nothing to release fails the amount check |
| IncentivesGenesis.ReleasedAmountGreaterThanTotalExample | x/incentives/types/genesis_test.go:66-71 | schedule 3 having released more umars than it holds fails the last check |
| IncentivesGenesis.NextIdTooSmallMessage | x/incentives/types/genesis.go:31 | the text "incentives schedule id 5 is not smaller than next schedule id 4" |
| IncentivesGenesis.DuplicateIdMessage | x/incentives/types/genesis.go:35 | the text "incentives schedule has duplicate id 2" |
| IncentivesGenesis.EndTimeMessage | x/incentives/types/genesis.go:39 | the text "incentives schedule 3 end time is not after start time" |
| IncentivesGenesis.ZeroTotalMessage | x/incentives/types/genesis.go:43 | the text "incentives schedule 3 has zero total amount" |
| IncentivesGenesis.SmallDecimal | x/incentives/types/genesis.go:31 | a one-digit id prints as its digit |
| IncentivesOps.IncrementAsWritten | x/incentives/keeper/keeper.go:81-89 | as written, the counter moves to old + 1 and the id handed out is not below it, so it is not the old value |
| IncentivesOps.IncrementAsWrittenBreaksIdsBelow | x/incentives/keeper/keeper.go:81-89 | with the counter as written, storing the schedule under the id handed out breaks the invariant that every id is below the counter |
| IncentivesOps.Increment | x/incentives/keeper/keeper.go:81-89 | corrected: the id returned is below the new counter old + 1 |
| IncentivesOps.IncrementAsWrittenBreaksGenesis | x/incentives/types/genesis.go:30 | with the counter as written, a schedule created at counter 2 gets id 3 with the counter at 3, and the genesis check then reports id 3 not smaller than 3 |
| IncentivesOps.IncrementKeepsIdsBelow | x/incentives/types/genesis.go:30 | with the corrected counter the new id is fresh and all ids stay below the counter |
| IncentivesOps.TerminateFrom | x/incentives/keeper/schedule.go:43-52 | the loop leaves a consistent store with no new id, and on success a valid amount |
| IncentivesOps.TerminateSucceeds | x/incentives/keeper/schedule.go:43-52 | the loop succeeds iff the ids are distinct and all stored, so a repeated id fails |
| IncentivesOps.ElemsCons | x/incentives/keeper/schedule.go:43 | the ids of a non-empty list are its head and those of its tail |
| IncentivesOps.TerminateRemoves | x/incentives/keeper/schedule.go:43-52 | a successful loop removes exactly the listed schedules |
| IncentivesOps.TerminateConserves | x/incentives/keeper/schedule.go:49 | a successful loop refunds exactly what the removed schedules had left |
| IncentivesOps.StoreAll | x/incentives/keeper/genesis.go:18-20 | the import writes every schedule under its id and no other key |
| IncentivesOps.StoreAllLastWins | x/incentives/keeper/genesis.go:18-20 | a schedule not overwritten by a later one with its id ends up under its id, so a duplicate keeps the last |
| IncentivesOps.StoreAllUntouched | x/incentives/keeper/genesis.go:18-20 | an id no listed schedule carries keeps its entry |
| IncentivesOps.StoreAllFrom | x/incentives/keeper/genesis.go:18-20 | every entry afterwards is either untouched or a listed schedule under its own id |
| IncentivesOps.ImportKeys | x/incentives/keeper/genesis.go:18-20 | after importing into an empty store every entry is a listed schedule under its own id |
| IncentivesOps.ImportExportSorted | x/incentives/keeper/genesis.go:31-34 | the export of an import is in strictly ascending id order |
| IncentivesOps.ImportExportSame | x/incentives/keeper/genesis.go:13-40 | with distinct ids, export(import(ss)) holds the same schedules as ss, as many of them |
| IncentivesOps.ImportExportCount | x/incentives/keeper/genesis.go:13-40 | with distinct ids the export has as many schedules as were imported |
| IncentivesOps.ImportExportOnlyImported | x/incentives/keeper/genesis.go:13-40 | the export holds only imported schedules |
| IncentivesOps.ImportExportAllImported | x/incentives/keeper/genesis.go:13-40 | with distinct ids every imported schedule is exported |
| IncentivesOps.ExportedIsImported | x/incentives/keeper/genesis.go:13-40 | each exported schedule is an imported one |
| IncentivesOps.ImportedIsExported | x/incentives/keeper/genesis.go:13-40 | each imported schedule of a list with distinct ids is exported |
| IncentivesOps.IdsOfDistinct | x/incentives/keeper/genesis.go:18-20 | a list with distinct ids has as many ids as schedules |
| IncentivesOps.ImportValidGenesis | x/incentives/keeper/genesis.go:13-24 | importing a valid genesis state gives a consistent store, ids below the counter, schedules that start before they end |
| IncentivesMsgs.Code | x/incentives/types/errors.go:5-12 | each module error's registered code is between 2 and 7 |
| IncentivesMsgs.CodesDistinct | x/incentives/types/errors.go:5-12 | no two errors share a code |
| IncentivesMsgs.ValidateCreateAccepts | x/incentives/types/tx.go:17-35 | a create message passes iff its authority decodes, start < end and the amount is non-empty |
| IncentivesMsgs.AuthorityFirst | x/incentives/types/tx.go:19-21 | a bad authority is reported before anything else, for both messages |
| IncentivesMsgs.TimesBeforeAmount | x/incentives/types/tx.go:24-32 | with both the times and the amount wrong, the times are reported |
| IncentivesMsgs.ValidateTerminateAccepts | x/incentives/types/tx.go:50-62 | a terminate message passes iff its authority decodes and it lists at least one id |
| IncentivesMsgs.ZeroCoinPasses | x/incentives/types/tx.go:28-32 | only emptiness is checked: an amount holding a zero coin passes |
| IncentivesMsgs.CreateSigners | x/incentives/types/tx.go:37-43 | one signer; once `ValidateBasic` has passed it is the address the authority check decoded, and an authority that does not decode gives the empty address |
| IncentivesMsgs.TerminateSigners | x/incentives/types/tx.go:64-70 | one signer; once `ValidateBasic` has passed it is the address the authority check decoded, and an authority that does not decode gives the empty address |
| IncentivesMsgs.ProposalAgreesWithMsg | x/incentives/types/proposals.go:40-54 | after `ValidateAbstract` passes, the create proposal reports what the create message with the same fields reports |
| IncentivesMsgs.TerminateProposalAgreesWithMsg | x/incentives/types/proposals.go:93-103 | the same for the terminate proposal: empty ids are refused |
| IncentivesMsgs.AbstractFirst | x/incentives/types/proposals.go:41-43 | a refused title or description is reported before any other check |
| IncentivesMsgs.ArrayToString | x/incentives/types/proposals.go:118-121 | `arrayToString` is the decimals of the ids joined by the delimiter |
| IncentivesMsgs.ArrayToStringSpaced | x/incentives/types/proposals.go:114-121 | `arrayToString([1,2,3], ", ") == "1, 2, 3"` |
| IncentivesMsgs.ArrayToStringEmpty | x/incentives/types/proposals.go:118-121 | the empty list gives "" |
| GovTypes.TallyResultOf | x/gov/keeper/tally.go:114 | each reported option total is the whole-token truncation of the decimal total: non-negative, at most the total and within one token of it |
| GovPower.IncrementTallyResult | x/gov/keeper/tally.go:150-157 | the loop over the weighted options yields exactly `AddPower` of the results, and the tokens voted rise by the whole power |
| GovPower.AddPowerSnoc | x/gov/keeper/tally.go:151-154 | one more weighted option adds power x weight to its own option and changes no other |
| GovPower.AddPowerGet | x/gov/keeper/tally.go:150-157 | each option's total rises by exactly that option's contribution from the vote |
| GovPower.ContributionUnchosen | x/gov/keeper/tally.go:151-154 | an option the vote does not name receives nothing |
| GovPower.PlainVote | x/gov/keeper/tally.go:151-154 | a single option of weight 1 puts the whole power on that option and nothing on the others |
| GovPower.WholePowerSplits | x/gov/keeper/tally.go:151-154 | with a whole-token power k the four options together receive k times the sum of the weights |
| GovPower.BalancedIncrement | x/gov/keeper/tally.go:150-157 | with weights summing to 1 and a whole-token power, the four option totals rise together by exactly what the tokens voted rise by |
| GovPower.DelegatedPowerStake | x/gov/keeper/tally.go:77-88 | a delegator's power and whether its deductions panic depend only on the validators' bonded tokens and shares, not on earlier deductions or votes |
| GovPower.DeductibleCons | x/gov/keeper/tally.go:80-84 | the delegation walk avoids the division by zero exactly when the first delegation is to an unbonded validator or one with shares, and the rest avoid it too |
| GovPower.DeductPanics | x/gov/keeper/tally.go:77-88 | the delegation walk panics exactly when some delegation is to a bonded validator without delegator shares |
| GovPower.DeductResult | x/gov/keeper/tally.go:77-88 | after the walk the validator map has the same keys, each validator's deductions are raised by exactly the voter's shares in it and nothing else changes, and the power grows by the delegations' worth |
| GovPower.DeductDelegations | x/gov/keeper/tally.go:77-88 | the loop over the voter's delegations computes exactly the `Deduct` walk, panic included |
| GovPower.SumPartsRemove | x/gov/keeper/tally.go:102-111 | the sum of the validators' remaining power does not depend on the order of the map walk |
| GovPower.PartsStep | x/gov/keeper/tally.go:102-111 | one validator of the walk moves its remaining power from the outstanding sum into the results and the tokens voted |
| GovPower.TallyValidators | x/gov/keeper/tally.go:101-111 | the validators loop succeeds exactly when every validator that voted has delegator shares, and then adds each voting validator's remaining power to its options and to the tokens voted, in any map order |
| GovTally.CurrentValidatorsFresh | x/gov/keeper/tally.go:27-39 | the map holds exactly the bonded operators, each with its bonded tokens and shares as reported, nothing deducted and no vote |
| GovTally.BuildValidators | x/gov/keeper/tally.go:28-39 | the iteration over the bonded validators builds exactly that map |
| GovTally.CountVoteEffect | x/gov/keeper/tally.go:60-99 | one vote: the voter's power is its delegations' worth plus its vesting tokens and goes to its options and to the tokens voted; each validator loses exactly the voter's shares in it and records the vote if it is the voter's own; the step panics exactly on a delegation to a bonded validator without shares |
| GovTally.CountVotesValidators | x/gov/keeper/tally.go:60-99 | after the vote loop every bonded validator keeps its stake, has lost the shares of every delegator who voted and holds its own account's vote if it voted |
| GovTally.Decide | x/gov/keeper/tally.go:116-147 | no bonded tokens fails without burning; a passing proposal never burns; a panic happens only when no tokens voted although some abstained |
| GovTally.BelowQuorumBurns | x/gov/keeper/tally.go:121-126 | with stake, a share of tokens voted below the quorum fails and burns the deposits |
| GovTally.AllAbstainFails | x/gov/keeper/tally.go:128-131 | with quorum met and everything abstaining, the proposal fails without burning, whatever the veto share |
| GovTally.VetoBurns | x/gov/keeper/tally.go:133-139 | past the quorum and abstain checks, a veto share above the veto threshold fails and burns, whatever the yes and no totals |
| GovTally.PassesExactly | x/gov/keeper/tally.go:116-147 | a proposal passes if and only if there is stake, the quorum is met, not everything abstains, the veto share is at most the veto threshold and the no share of the non-abstaining tokens is below the threshold |
| GovTally.DecideTotal | x/gov/keeper/tally.go:137 | when zero tokens voted implies zero abstain (weights in [0, 1]) the cascade never reaches a division by zero |
| GovTally.YesAndNoMajority | x/gov/keeper/tally_test.go:280-331 | 26 million bonded and 74 million vesting tokens all voting 51 million yes to 49 million no passes without burning; 49 yes to 51 no fails without burning |
| GovTally.SumPartsSilent | x/gov/keeper/tally.go:102-105 | validators that have not voted add nothing to any option or to the tokens voted |
| GovTally.ConcludeSilent | x/gov/keeper/tally.go:101-147 | after a vote loop that recorded no vote, every option reports zero and the proposal does not pass |
| GovTally.NoVotesTally | x/gov/keeper/tally.go:20-148 | with no votes in store the tally reports zero for every option and the proposal does not pass |
| GovTally.Outcome | x/gov/keeper/tally.go:113-147 | the outcome exists exactly when the decision does, and reports the truncated tally of the option totals |
| GovTally.CountOne | x/gov/keeper/tally.go:61-95 | one pass of the vote loop body computes exactly one `CountVote` step |
| GovTally.Tally | x/gov/keeper/tally.go:20-148 | the method's result is the functional tally of the proposal's votes in store order; on success the proposal has no votes left and no other proposal's votes change |
| GovTally.Finish | x/gov/keeper/tally.go:101-147 | the validators loop followed by the decision computes exactly `Conclude` of the counted state |
| GovVesting.MapSumInsert | x/gov/keeper/vesting.go:52-53 | recording a fresh user raises the sum of the recorded powers by exactly its power |
| GovVesting.AddPageOk | x/gov/keeper/vesting.go:46-57 | a page is accepted if and only if none of its users is already recorded and none repeats within the page |
| GovVesting.AddPageKeys | x/gov/keeper/vesting.go:46-57 | an accepted page keeps every earlier entry, maps each of its users to its power and records nobody else |
| GovVesting.AddPageTotal | x/gov/keeper/vesting.go:46-57 | an accepted page raises the running total by the page's sum, and the sum of the recorded powers by the same amount |
| GovVesting.IncrementVotingPowers | x/gov/keeper/vesting.go:46-57 | the loop over one page computes exactly `AddPage`: the duplicate-address error, or the updated map and total |
| GovVesting.AddPageGrows | x/gov/keeper/vesting.go:46-57 | an accepted non-empty page of the contract's users records at least one new user and stays among the contract's users |
| GovVesting.AddPageBounded | x/gov/keeper/vesting.go:46-57 | an accepted page of the contract's users records all of them, stays among the contract's users and, when not empty, leaves fewer users still to record |
| GovVesting.Collect | x/gov/keeper/vesting.go:62-94 | a collection that fails returns an empty map and a zero total |
| GovVesting.CollectStops | x/gov/keeper/vesting.go:66-73 | a failed query, or a page that repeats a user, ends the collection with that error |
| GovVesting.CollectGoesOn | x/gov/keeper/vesting.go:75-91 | a query whose page is accepted goes on after that page's last user with the page added |
| GovVesting.GetTokensInVesting | x/gov/keeper/vesting.go:62-94 | the pagination loop computes exactly `Collect` from the first page, stopping after the first empty page |
| GovVesting.MustGetTokensInVesting | x/gov/keeper/vesting.go:98-105 | panics exactly when the collection fails, and otherwise returns its map and total |
| GovVesting.CollectSum | x/gov/keeper/vesting.go:62-94 | from any cursor, a successful collection keeps the total equal to the sum of the recorded powers |
| GovVesting.CollectTotal | x/gov/keeper/vesting.go:62-94 | after a successful `GetTokensInVesting` the total is the sum of the map's values |
| GovVesting.RepeatedUserFails | x/gov/keeper/vesting.go:48-50 | a page repeating an already recorded user fails the whole collection |
| GovVesting.TwoPagesExample | x/gov/keeper/vesting.go:62-94 | two pages and then an empty one record the powers of both pages, summed |
| GovStore.RemoveVoter | x/gov/keeper/keeper.go:55-58 | the votes left after a deletion are no more than before, all taken from them, and none is by the deleted voter |
| GovStore.RemoveAbsentVoter | x/gov/keeper/keeper.go:55-58 | deleting a voter who has no vote leaves the votes unchanged |
| GovStore.RemoveVoterDistinct | x/gov/keeper/keeper.go:55-58 | deleting a voter keeps one vote per voter |
| GovStore.RemoveFirstVoter | x/gov/keeper/tally.go:60-99 | with one vote per voter, deleting the first vote's voter leaves exactly the remaining votes, so the iteration can go on over them |
| GovStore.Due | x/gov/abci.go:54 | the due entries are exactly the queue entries whose end time is at or before the block time |
| GovStore.Without | x/gov/abci.go:119 | removing a proposal from a queue keeps exactly the entries of the other proposals |
| GovStore.ClearVotes | x/gov/keeper/tally.go:96 | once a tally deleted every vote of the proposal it has none left, and every other proposal keeps its votes |
| GovStore.VotesCleared | x/gov/keeper/tally.go:96 | any two vote maps that agree outside the proposal, the later with none of its votes left, are related by `ClearVotes` |
| GovStore.Keeper.constructor | x/gov/keeper/keeper.go:35-47 | a new keeper has an empty store |
| GovStore.Keeper.DeleteVote | x/gov/keeper/keeper.go:55-58 | the vote of the voter on the proposal is removed and every other proposal's votes are unchanged |
| GovStore.Keeper.SetProposal | x/gov/abci.go:118 | the proposal is stored under its id, nothing else changes |
| GovStore.Keeper.DeleteProposal | x/gov/abci.go:29 | the proposal and its entries in both queues are removed |
| GovStore.Keeper.RemoveFromActiveProposalQueue | x/gov/abci.go:119 | the proposal's entries leave the active queue |
| GovStore.Keeper.RefundAndDeleteDeposits | x/gov/abci.go:60-64 | the proposal's deposits are deleted and added to the refunded coins |
| GovStore.Keeper.DeleteAndBurnDeposits | x/gov/abci.go:60-61 | the proposal's deposits are deleted and added to the burned coins |
| GovAbci.AppStore.constructor | x/gov/abci.go:77 | the other modules' state starts as given |
| GovAbci.RunMsgsAppend | x/gov/abci.go:80-90 | running two batches of messages is running the first and, only if it succeeds, the second |
| GovAbci.RunMsgsFailsAt | x/gov/abci.go:84-87 | a failing message makes the whole run fail, whatever follows it |
| GovAbci.RunMsgsPrefixes | x/gov/abci.go:80-90 | a successful run succeeds on every prefix of the messages |
| GovAbci.ExecuteMsgs | x/gov/abci.go:78-91 | the handler loop computes exactly `RunMsgs`, stopping at the first failure |
| GovAbci.DropProposal | x/gov/abci.go:28-51 | dropping an inactive proposal keeps the store well formed |
| GovAbci.DropAll | x/gov/abci.go:28-51 | the inactive pass keeps the store well formed |
| GovAbci.Settled | x/gov/abci.go:60-119 | settling a tallied proposal keeps the store well formed |
| GovAbci.ClearVotesWellFormed | x/gov/keeper/tally.go:96 | deleting a proposal's votes keeps the store well formed |
| GovAbci.EndVoting | x/gov/abci.go:54-139 | ending a voting period keeps the store well formed |
| GovAbci.DropInactive | x/gov/abci.go:28-51 | the store update of one inactive entry is exactly `DropProposal`, and panics exactly where it does |
| GovAbci.Settle | x/gov/abci.go:60-119 | the store updates after one tally are exactly `Settled` |
| GovAbci.ExecuteProposal | x/gov/abci.go:77-101 | the messages run on a cache that is written back exactly when every message succeeds |
| GovAbci.EndVotingPeriod | x/gov/abci.go:54-139 | the handling of one active entry is exactly `EndVoting`, and panics exactly where it does |
| GovAbci.DropDue | x/gov/abci.go:28-51 | the inactive pass over the due entries is exactly `DropAll` |
| GovAbci.EndDue | x/gov/abci.go:54-139 | the active pass over the due entries is exactly `EndAll` |
| GovAbci.EndBlocker | x/gov/abci.go:20-140 | the end blocker does exactly `EndBlock`: the inactive pass, then the active pass, `ok` false exactly where the chain panics |
| GovAbci.SettledShape | x/gov/abci.go:60-119 | settling changes only the tallied proposal's status and final tally, its active entry and its deposits, which go wholly to the burned or the refunded coins |
| GovAbci.EndVotingSettles | x/gov/abci.go:54-139 | a tallied proposal ends Passed if and only if it passes and every message succeeds, Rejected if and only if it does not pass, Failed if and only if it passes and a message fails; only a Passed proposal's message run is kept; its votes and deposits are gone and only its own active entry leaves the queue |
| GovAbci.EndVotingCases | x/gov/abci.go:54-64 | ending a voting period panics exactly when the proposal is missing or its tally panics |
| GovAbci.FailedMessageDiscarded | x/gov/abci.go:84-108 | a passing proposal whose i-th message fails ends Failed and leaves the other modules' state as it was |
| GovAbci.DropAllGone | x/gov/abci.go:28-51 | the inactive pass deletes every listed proposal together with its queue entries and deposits, and keeps every other entry and proposal |
| GovAbci.EndAllFinal | x/gov/abci.go:54-139 | the active pass gives every listed proposal a final status and drops exactly their active entries, leaving other proposals and the inactive queue untouched |
| GovAbci.NotDue | x/gov/abci.go:54 | an entry that survives the removal of every due proposal was not due |
| GovAbci.EndBlockClearsDue | x/gov/abci.go:20-140 | after the end blocker no due entry is left in either queue, and every proposal whose voting period ended and that was not dropped first is final |
| GovAbci.DepositTotalRemove | x/gov/abci.go:60-64 | the deposits held are one proposal's deposits plus all the others' |
| GovAbci.DropConserves | x/gov/abci.go:28-51 | dropping an inactive proposal moves its deposits to the refunded coins: nothing is created or lost |
| GovAbci.EndVotingConserves | x/gov/abci.go:60-64 | ending a voting period moves the deposits to the refunded or the burned coins: nothing is created or lost |
| GovAbci.DropAllConserves | x/gov/abci.go:28-51 | the inactive pass neither creates nor loses deposited coins |
| GovAbci.EndAllConserves | x/gov/abci.go:54-139 | the active pass neither creates nor loses deposited coins |
| GovAbci.EndBlockConserves | x/gov/abci.go:20-140 | the end blocker neither creates nor loses deposited coins: it only refunds or burns them |
| GovQuery.CheckRequest | x/gov/keeper/query_server.go:28-34 | a request passes the checks if and only if it is present and names a proposal other than 0, and then yields that id |
| GovQuery.TallyResult | x/gov/keeper/query_server.go:27-58 | the handler answers exactly `TallyQueryAsWritten`, with Failed re-tallied as the switch is written, and leaves the store as it was, the live tally running on a throw-away copy of the votes |
| GovQuery.QueryErrors | x/gov/keeper/query_server.go:28-41 | the query is invalid if and only if the request is missing or names id 0, and not found if and only if it names an unknown proposal, as written and as corrected alike |
| GovQuery.QueryDiffersOnlyOnFailed | x/gov/keeper/query_server.go:45-55 | the handler as written and the corrected dispatch give different answers only for a proposal whose status is Failed |
| GovQuery.QueryDuringVoting | x/gov/keeper/query_server.go:52-55 | for a proposal in its voting period the answer is the live tally of its votes, as written and as corrected alike |
| GovQuery.QueryAfterEnd | x/gov/keeper/query_server.go:45-55 | once the end blocker has tallied a proposal, the corrected query answers with that tally whatever the final status |
| GovQuery.FailedQueryForgetsTally | x/gov/keeper/query_server.go:49-55 | as written, a proposal that ended Failed is re-tallied after its votes were deleted and the query reports zero for every option instead of its stored final tally |
| GovMetadata.StringField | x/gov/types/metadata.go:8-16 | a `string` field decodes if and only if it is absent or string-like (a string or `null`), and a present string decodes to itself |
| GovMetadata.StringsField | x/gov/types/metadata.go:8-16 | a `[]string` field decodes if and only if it is absent, `null` or an array of string-likes; absent and `null` give a nil slice, an array a slice of the same length holding its strings |
| GovMetadata.ProposalMetadataAccepted | x/gov/types/metadata.go:37-72 | proposal metadata is accepted if and only if it parses to an object with no key outside the six known ones, a non-empty string title, an authors array of strings (possibly empty), a non-empty string details and string-likes for the optional fields; the result carries the title, details and authors |
| GovMetadata.ProposalErrorOrder | x/gov/types/metadata.go:55-69 | the checks report an empty title first, then missing authors, then empty details, then unexpected keys |
| GovMetadata.ExtraKeyRejected | x/gov/types/metadata.go:44-69 | any key outside the six known ones makes otherwise valid proposal metadata fail |
| GovMetadata.NotJsonRejected | x/gov/types/metadata.go:40-46 | input that is not JSON, the empty string included, is rejected for proposals and votes alike |
| GovMetadata.VoteMetadataAccepted | x/gov/types/metadata.go:78-96 | vote metadata is accepted if and only if it is `null` or an object whose only possible key is "justification", holding a string-like, and then carries that justification |
| GovMetadata.TitleAndSummaryRejected | x/gov/keeper/msg_server_test.go:41-47 | metadata with only a title and a summary is rejected for want of authors |
| GovMetadata.EmptyAuthorsAccepted | x/gov/types/metadata.go:59-61 | an empty authors array counts as present: metadata with a title, `[]` authors and details is accepted |
| ShuttleMsgs.TimeoutTimestamp | x/shuttle/keeper/msg_server.go:135 | the timestamp is the block time plus five minutes in nanoseconds, reduced into the 64-bit range, and equal to that sum whenever it fits |
| ShuttleMsgs.CoinSet | x/shuttle/keeper/msg_server.go:144-148 | a single coin as a coin set holds exactly that coin's amount of its denom and nothing else |
| ShuttleMsgs.Execute | x/shuttle/keeper/msg_server.go:156-159 | a message the router runs is recorded after every earlier one, and the state stays sound |
| ShuttleMsgs.DistributeFromFeePool | x/shuttle/keeper/msg_server.go:126-128 | the draw succeeds if and only if the community pool covers the amount, and otherwise fails with the insufficient-pool error |
| ShuttleMsgs.TransfersOf | x/shuttle/keeper/msg_server.go:144-155 | one transfer message per coin, in the coins' order, each built from the channel, the module account, the receiver, the timeout and that coin |
| ShuttleMsgs.Dispatch | x/shuttle/keeper/msg_server.go:144-164 | the dispatch loop keeps the state sound and fails only with the router's refusal |
| ShuttleMsgs.Shortfall | x/shuttle/keeper/msg_server.go:124 | the shortfall is a valid coin set |
| ShuttleMsgs.Fund | x/shuttle/keeper/msg_server.go:124-129 | the community-pool draw keeps the state sound |
| ShuttleMsgs.DrawShortfall | x/shuttle/keeper/msg_server.go:125-129 | drawing a shortfall keeps the state sound |
| ShuttleMsgs.SendFundsOutcome | x/shuttle/keeper/msg_server.go:84-174 | a successful `SendFunds` leaves a sound state |
| ShuttleMsgs.AuthorityCheckedFirst | x/shuttle/keeper/msg_server.go:46-48 | each of the three handlers rejects a sender other than the authority with the invalid-signer error, before any other check |
| ShuttleMsgs.RegisterAccountCases | x/shuttle/keeper/msg_server.go:43-82 | registration fails when an interchain account already exists on the connection, succeeds if and only if the sender is the authority, the port is known, no account exists and the router accepts the registration, and then only records that message |
| ShuttleMsgs.SendFundsGuardOrder | x/shuttle/keeper/msg_server.go:99-117 | `SendFunds` checks in order that the channel exists, that it has at most one connection hop, that it has one at all (zero hops is the panic of the index), and that an interchain account exists on it; the receiver is that account |
| ShuttleMsgs.FromSeqFirst | x/shuttle/keeper/msg_server.go:144 | a valid coin slice is its first coin plus the rest |
| ShuttleMsgs.DispatchEffect | x/shuttle/keeper/msg_server.go:144-164 | a successful dispatch records one transfer per coin in order, takes exactly the slice's coins out of the module account and changes nothing else |
| ShuttleMsgs.TransferStep | x/shuttle/keeper/msg_server.go:156-159 | an accepted transfer takes its coin out of the module account and changes nothing but the record |
| ShuttleMsgs.AmountsCompose | x/shuttle/keeper/msg_server.go:144-164 | taking the first coin and then the rest takes the whole slice |
| ShuttleMsgs.DispatchSucceeds | x/shuttle/keeper/msg_server.go:144-164 | when the module account holds every coin, the dispatch succeeds if and only if the router accepts every transfer; the first refusal aborts it |
| ShuttleMsgs.EscrowFirst | x/shuttle/keeper/msg_server.go:144-164 | a balance covering a coin slice covers its first coin, and what is left after escrowing it covers the rest |
| ShuttleMsgs.FundCovers | x/shuttle/keeper/msg_server.go:120-129 | after the pool draw the module account holds its old balance plus the shortfall, which covers the whole amount |
| ShuttleMsgs.DrawAdds | x/shuttle/keeper/msg_server.go:126 | a successful draw adds the shortfall to the module account |
| ShuttleMsgs.DrawCases | x/shuttle/keeper/msg_server.go:125-129 | an empty shortfall draws nothing; the draw fails if and only if the pool cannot cover the shortfall, and takes exactly the shortfall from it |
| ShuttleMsgs.FundCases | x/shuttle/keeper/msg_server.go:120-129 | only the shortfall is drawn and only when it is non-empty; the draw fails if and only if the pool cannot cover it |
| ShuttleMsgs.PayoutArithmetic | x/envoy/keeper/msg_server_test.go:262-263 | funding by the shortfall and then paying out the amount leaves the module account at the saturating difference of its balance and the amount |
| ShuttleMsgs.SubIsSaturating | x/shuttle/keeper/msg_server.go:225-232 | a subtraction that cannot go negative agrees with the saturating one |
| ShuttleMsgs.SendFundsBalances | x/envoy/keeper/msg_server_test.go:262-268 | a successful `SendFunds` leaves the module account at SaturateSub(balance, amount) and the pool at SaturateSub(pool, SaturateSub(amount, balance)), and has dispatched one transfer per coin, in order, to the channel's interchain account |
| ShuttleMsgs.SendFundsSucceeds | x/shuttle/keeper/msg_server.go:119-164 | once the guards pass, `SendFunds` succeeds if and only if the pool covers the shortfall and the router accepts every transfer |
| ShuttleMsgs.ProtoMessagesMeaning | x/shuttle/keeper/msg_server.go:246-258 | the conversion fails if and only if some entry is not a proto message, naming the first such entry; otherwise it keeps every message, in order and of the same count |
| ShuttleMsgs.SendMessagesDispatch | x/shuttle/keeper/msg_server.go:176-223 | a conversion failure is reported as is; a `SendMessages` succeeds if and only if the sender is the authority, the messages convert and serialise and the router accepts the transaction, and then records exactly one SendTx with the serialised messages, a 300-second timeout and an empty memo |
| ShuttleMsgs.ConvertToProtoMessages | x/shuttle/keeper/msg_server.go:246-258 | the appending loop computes exactly `ProtoMessages` |
| ShuttleMsgs.ShuttleKeeper.constructor | x/shuttle/keeper/msg_server.go:39-41 | the keeper starts with the given environment and state |
| ShuttleMsgs.ShuttleKeeper.ExecuteMsg | x/shuttle/keeper/msg_server.go:156-159 | the router's message run, `Execute`, applied to the keeper's state; a refused message changes nothing |
| ShuttleMsgs.ShuttleKeeper.RegisterAccount | x/shuttle/keeper/msg_server.go:43-82 | the handler succeeds, fails with the same error and leaves the same state as `RegisterAccountOutcome` |
| ShuttleMsgs.ShuttleKeeper.SendFunds | x/shuttle/keeper/msg_server.go:84-174 | the handler succeeds, fails with the same error and leaves the same state as `SendFundsOutcome` |
| ShuttleMsgs.ShuttleKeeper.FundShortfall | x/shuttle/keeper/msg_server.go:120-129 | the pool draw of the handler matches `Fund` |
| ShuttleMsgs.ShuttleKeeper.Draw | x/shuttle/keeper/msg_server.go:125-129 | the draw matches `DrawShortfall` |
| ShuttleMsgs.ShuttleKeeper.DispatchTransfers | x/shuttle/keeper/msg_server.go:144-164 | the per-coin loop matches `Dispatch` |
| ShuttleMsgs.ShuttleKeeper.SendMessages | x/shuttle/keeper/msg_server.go:176-223 | the handler succeeds, fails with the same error and leaves the same state as `SendMessagesOutcome` |
| DistributionAllocation.RewardPart | custom/distribution/keeper/allocation.go:29-32 | the reward part is a valid coin set |
| DistributionAllocation.NonRewardPart | custom/distribution/keeper/allocation.go:31-33 | `feesCollected.Sub(feesCollectedReward)` never panics and yields a valid coin set |
| DistributionAllocation.SplitFees | custom/distribution/keeper/allocation.go:29-33 | the reward and non-reward parts add up to the collected fees; the reward part holds only `umars`, all of it; the other part has no `umars` and every other denom untouched |
| DistributionAllocation.AfterAllocation | custom/distribution/keeper/allocation.go:29-48 | the balances after the split stay valid coin sets |
| DistributionAllocation.AllocateTokensMoves | custom/distribution/keeper/allocation.go:36-48 | the allocation panics if and only if the community-pool funding fails; otherwise the pool grows by exactly the non-reward fees, the fee collector keeps exactly the `umars` for the stock allocator, and nothing is created or lost |
| DistributionAllocation.AllocateTokensExample | custom/distribution/keeper/allocation.go:32-38 | 20000 ibc/1234ABCD of fees all reach the community pool while the `umars` stay in the fee collector |
| DistributionAllocation.DistributionKeeper.constructor | custom/distribution/keeper/allocation.go:21-24 | the keeper starts with the given balances |
| DistributionAllocation.DistributionKeeper.AllocateTokens | custom/distribution/keeper/allocation.go:21-49 | panics exactly when `AfterAllocation` does and otherwise leaves exactly its balances |
| ProtoWire.IntAdd | x/incentives/types/query.pb.go:685-687 | Go's `int` sum of two non-negative `int`s is non-negative if and only if it fits below 2^63, and then is the true sum |
| ProtoWire.Int32 | x/incentives/types/query.pb.go:585 | `int32(x)` is a signed 32-bit value |
| ProtoWire.Varint | x/incentives/types/query.pb.go:497-507 | every varint has at least one byte |
| ProtoWire.SovIsVarintLength | x/incentives/types/query.pb.go:559-561 | `(Len64(x\|1) + 6) / 7` is exactly the length of the varint of x |
| ProtoWire.VarintLengthBound | x/incentives/types/query.pb.go:497-507 | a value below 128^k takes at most k bytes |
| ProtoWire.VarintAtMostTen | x/incentives/types/query.pb.go:559-561 | every `uint64` takes one to ten bytes |
| ProtoWire.Uint32VarintLength | x/incentives/types/query.pb.go:608 | a 32-bit value takes at most five bytes |
| ProtoWire.VarintShape | x/incentives/types/query.pb.go:497-507 | every byte of a varint but the last has the continuation bit set, and the last does not |
| ProtoWire.VarintCons | x/incentives/types/query.pb.go:500-504 | a varint of at least 128 is a continuation group for the low seven bits followed by the varint of the rest |
| ProtoWire.EncodeVarint | x/incentives/types/query.pb.go:497-507 | `encodeVarintQuery` writes exactly the varint of v into the sov(v) bytes before offset, returns their start and leaves the rest of the buffer as it was |
| ProtoWire.VarintEnd | x/incentives/types/query.pb.go:571-584 | the varint loop, when it stops normally, ends after the start and within the input |
| ProtoWire.ReadVarint | x/incentives/types/query.pb.go:570-584 | a decoded varint is a `uint64` and the index moves forward within the input |
| ProtoWire.WireStep | x/incentives/types/query.pb.go:580 | one turn of `wire \|= uint64(b&0x7F) << shift` adds the next group to the truncated value |
| ProtoWire.DecodeVarint | x/incentives/types/query.pb.go:570-584 | the loop with Go's shifts and truncations computes exactly `ReadVarint` |
| ProtoWire.VarintEndOf | x/incentives/types/query.pb.go:571-584 | the loop stops exactly at the end of a well-formed varint that fits the shift bound |
| ProtoWire.Base128Varint | x/incentives/types/query.pb.go:497-507 | the groups of the varint of v add up to v |
| ProtoWire.ReadVarintAt | x/incentives/types/query.pb.go:497-584 | decoding what `encodeVarintQuery` wrote gives back the value and moves past exactly its bytes |
| ProtoWire.ReadVarintOf | x/incentives/types/query.pb.go:570-584 | a varint that ends at e and whose groups denote v decodes to v, ending at e |
| ProtoWire.VarintEndOverflow | x/incentives/types/query.pb.go:572-574 | continuation bytes up to a shift of 64 make the loop fail with the overflow error |
| ProtoWire.ReadVarintOverflow | x/incentives/types/query.pb.go:572-574 | ten bytes with the continuation bit set are `ErrIntOverflowQuery` |
| ProtoWire.VarintEndTruncated | x/incentives/types/query.pb.go:575-577 | input that ends while the continuation bit is set makes the loop fail with the end-of-input error |
| ProtoWire.ReadVarintTruncated | x/incentives/types/query.pb.go:575-577 | input that ends within ten bytes with the continuation bit still set is `io.ErrUnexpectedEOF` |
| ProtoWire.ReadTag | x/incentives/types/query.pb.go:568-592 | an accepted tag has a positive field number and a wire type below 8 other than 4, and moves the index forward within the input |
| ProtoWire.DecodeTag | x/incentives/types/query.pb.go:570-592 | the tag loop and its checks compute exactly `ReadTag` |
| ProtoWire.ReadLength | x/incentives/types/query.pb.go:667-691 | an accepted length gives payload bounds inside the input, starting after the length varint |
| ProtoWire.DecodeLength | x/incentives/types/query.pb.go:667-691 | the length loop and its checks compute exactly `ReadLength` |
| ProtoWire.SkipPayload | x/incentives/types/query.pb.go:908-955 | a step of `skip` that does not overflow never moves backwards |
| ProtoWire.SkipFrom | x/incentives/types/query.pb.go:891-963 | the `skip` loop, when it succeeds, ends after its start and below 2^63 |
| ProtoWire.Skip | x/incentives/types/query.pb.go:887-964 | a successful `skipQuery` skips at least one byte |
| ProtoWire.SkipPayloadStep | x/incentives/types/query.pb.go:908-958 | the wire-type switch computes exactly `SkipPayload` |
| ProtoWire.SkipField | x/incentives/types/query.pb.go:887-964 | the `skipQuery` loop computes exactly `Skip` |
| ProtoWire.SkipUnknown | x/incentives/types/query.pb.go:613-625 | the `default:` branch, when it succeeds, moves past the tag and stays within the input |
| ProtoWire.SkipUnknownField | x/incentives/types/query.pb.go:613-625 | the `default:` branch computes exactly `SkipUnknown` |
| ProtoWire.ReadOneByte | x/incentives/types/query.pb.go:578-583 | a byte below 0x80 is a whole varint, its own value |
| ProtoWire.SkipIllegalWireType | x/incentives/types/query.pb.go:953-954 | wire types 6 and 7 are refused as illegal |
| ProtoWire.SkipUnmatchedEndGroup | x/incentives/types/query.pb.go:946-949 | an end-group tag with no group open is refused |
| ProtoWire.SkipFixed | x/incentives/types/query.pb.go:922-923 | a fixed-width field is skipped by 9 or 5 bytes, without looking at them |
| ProtoWire.SkipVarintField | x/incentives/types/query.pb.go:909-921 | a well-formed unknown varint field is skipped whole |
| ProtoWire.SkipLenField | x/incentives/types/query.pb.go:924-943 | a well-formed unknown length-delimited field is skipped whole |
| ProtoWire.SkipEmptyGroup | x/incentives/types/query.pb.go:944-950 | a start-group tag straight followed by its end-group tag is skipped as two bytes |
| ProtoWire.LenFieldLength | x/incentives/types/query.pb.go:526-527 | a length-delimited field takes 1 + sov(l) + l bytes |
| ProtoWire.VarintFieldLength | x/incentives/types/query.pb.go:514-515 | a varint field takes 1 + sov(v) bytes |
| ProtoWire.TagByteAt | x/incentives/types/query.pb.go:585-592 | a one-byte tag with field number 1 to 15 and a wire type other than 4 reads as that field number and wire type |
| ProtoWire.TagByteRejected | x/incentives/types/query.pb.go:587-592 | a one-byte tag with wire type 4 or field number 0 is refused before any field is looked at |
| ProtoWire.LengthAt | x/incentives/types/query.pb.go:667-691 | a length varint n followed by n bytes within the input gives exactly those bounds |
| ProtoWire.LenFieldAt | x/incentives/types/query.pb.go:663-695 | reading a length-delimited field back: its tag, then the bounds of exactly its payload |
| ProtoWire.VarintFieldAt | x/incentives/types/query.pb.go:594-612 | reading a varint field back: its tag, then its value, ending at the field's end |
| ProtoWire.SkipUnknownVarintField | x/incentives/types/query.pb.go:613-625 | the `default:` branch at a well-formed varint field of an unknown number skips it whole |
| ProtoWire.SkipUnknownLenField | x/incentives/types/query.pb.go:613-625 | the `default:` branch at a well-formed length-delimited field of an unknown number skips it whole |
| ProtoWire.WriteBytes | x/incentives/types/query.pb.go:413-417 | `i -= len(data); copy(dAtA[i:], data)` puts exactly data before i and changes no other byte |
| ProtoWire.WriteLenField | x/incentives/types/query.pb.go:412-421 | the payload, its length varint and the tag byte, each written before the last, put exactly the encoded field before i and change no other byte |
| ProtoWire.WriteVarintField | x/incentives/types/query.pb.go:379-390 | the value's varint and then the tag byte put exactly the encoded field before i and change no other byte |
| ProtoWire.BytesFieldLength | x/shuttle/types/proposals.pb.go:318-350 | an optional bytes field takes its `Size` contribution, and is written if and only if it is non-empty |
| ProtoWire.Uint64FieldLength | x/shuttle/types/proposals.pb.go:359-383 | an optional `uint64` field takes its `Size` contribution, and is written if and only if it is non-zero |
| ProtoWire.PrependBytesField | x/shuttle/types/proposals.pb.go:187-242 | one `if len(v) > 0` block writes the field in front of what is already written and changes nothing else |
| ProtoWire.PrependUint64Field | x/shuttle/types/proposals.pb.go:259-305 | one `if v != 0` block writes the field in front of what is already written and changes nothing else |
| ProtoWire.RepeatedLength | x/incentives/types/query.pb.go:550-555 | a repeated field takes the sum of its elements' field sizes |
| ProtoWire.WriteRepeated | x/incentives/types/query.pb.go:480-493 | the backward loop over a repeated field writes it last element first, so that it reads in order, and changes no other byte |
| ProtoWire.RepeatedSplit | x/incentives/types/query.pb.go:480-493 | a repeated field's encoding splits at any element into that element's field and the rest |
| ProtoWire.RepeatedAppend | x/incentives/types/query.pb.go:480-493 | one more element appends exactly its field to the encoding |
| IncentivesQueryCodec.EncodeScheduleRequest | x/incentives/types/query.pb.go:379-390 | the encoded request takes at most six bytes |
| IncentivesQueryCodec.ScheduleRequestSize | x/incentives/types/query.pb.go:508-518 | `Size` is the length `Marshal` writes: nothing for a zero id, at least two bytes otherwise |
| IncentivesQueryCodec.ScheduleRequestToSizedBuffer | x/incentives/types/query.pb.go:379-390 | writes exactly the encoding at the end of the buffer, returns its length and changes nothing before it |
| IncentivesQueryCodec.MarshalScheduleRequest | x/incentives/types/query.pb.go:364-372 | `Marshal` returns exactly the encoding |
| IncentivesQueryCodec.ScheduleRequestField | x/incentives/types/query.pb.go:568-626 | one turn of the `Unmarshal` loop moves forward within the input |
| IncentivesQueryCodec.UnmarshalScheduleRequest | x/incentives/types/query.pb.go:565-633 | the `Unmarshal` loop computes exactly `DecodeScheduleRequest` |
| IncentivesQueryCodec.ScheduleRequestReads | x/incentives/types/query.pb.go:594-612 | an encoded request with a non-zero id, read at any point, replaces the id decoded so far by its own |
| IncentivesQueryCodec.ScheduleRequestRoundTrip | x/incentives/types/query.pb.go:364-633 | unmarshalling what `Marshal` wrote gives the request back |
| IncentivesQueryCodec.ScheduleRequestLastWins | x/incentives/types/query.pb.go:594-612 | of two requests back to back the later id wins, and an absent one leaves the earlier in place |
| IncentivesQueryCodec.ScheduleRequestRejects | x/incentives/types/query.pb.go:587-597 | an end-group wire type, field number 0, and field 1 with a wire type other than varint are each refused with their own error |
| IncentivesQueryCodec.ScheduleRequestTruncated | x/incentives/types/query.pb.go:603-605 | an id whose varint is cut off by the end of the input is an unexpected EOF |
| IncentivesQueryCodec.ScheduleRequestSkipsUnknown | x/incentives/types/query.pb.go:613-625 | a varint field of another number is skipped and changes nothing |
| IncentivesQueryCodec.ScheduleResponseSize | x/incentives/types/query.pb.go:520-529 | `Size` is the length `Marshal` writes, at least two bytes since the schedule is always written |
| IncentivesQueryCodec.ScheduleResponseToSizedBuffer | x/incentives/types/query.pb.go:407-423 | writes exactly the encoding at the end of the buffer and changes nothing before it |
| IncentivesQueryCodec.MarshalScheduleResponse | x/incentives/types/query.pb.go:392-400 | `Marshal` returns exactly the encoding |
| IncentivesQueryCodec.ScheduleResponseField | x/incentives/types/query.pb.go:637-709 | one turn of the `Unmarshal` loop moves forward within the input |
| IncentivesQueryCodec.UnmarshalScheduleResponse | x/incentives/types/query.pb.go:634-716 | the `Unmarshal` loop computes exactly `DecodeScheduleResponse` |
| IncentivesQueryCodec.ScheduleResponseReads | x/incentives/types/query.pb.go:663-695 | the field `Marshal` writes, read at any point, merges the schedule's bytes into the schedule decoded so far |
| IncentivesQueryCodec.ScheduleResponseRoundTrip | x/incentives/types/query.pb.go:392-716 | unmarshalling what `Marshal` wrote into an empty response gives the response back |
| IncentivesQueryCodec.ScheduleResponseWrongWireType | x/incentives/types/query.pb.go:664-666 | field 1 in any wire type but length-delimited is refused |
| IncentivesQueryCodec.ScheduleResponseLengthPastEnd | x/incentives/types/query.pb.go:689-691 | a length that runs past the end of the input is an unexpected EOF |
| IncentivesQueryCodec.ScheduleResponseNestedFails | x/incentives/types/query.pb.go:692-694 | a nested schedule that does not unmarshal fails the whole response |
| IncentivesQueryCodec.SchedulesRequestSize | x/incentives/types/query.pb.go:531-542 | `Size` is the length `Marshal` writes, which is non-zero if and only if a pagination is set |
| IncentivesQueryCodec.SchedulesRequestToSizedBuffer | x/incentives/types/query.pb.go:440-458 | writes exactly the encoding at the end of the buffer and changes nothing before it |
| IncentivesQueryCodec.MarshalSchedulesRequest | x/incentives/types/query.pb.go:425-433 | `Marshal` returns exactly the encoding |
| IncentivesQueryCodec.SchedulesRequestField | x/incentives/types/query.pb.go:746-790 | one turn of the `Unmarshal` loop moves forward within the input |
| IncentivesQueryCodec.UnmarshalSchedulesRequest | x/incentives/types/query.pb.go:717-802 | the `Unmarshal` loop computes exactly `DecodeSchedulesRequest` |
| IncentivesQueryCodec.SchedulesRequestRoundTrip | x/incentives/types/query.pb.go:425-802 | unmarshalling what `Marshal` wrote gives the request back: a nil pagination stays nil and a set one, even an empty one, comes back set |
| IncentivesQueryCodec.SchedulesRequestWrongWireType | x/incentives/types/query.pb.go:747-749 | field 1 in any wire type but length-delimited is refused |
| IncentivesQueryCodec.SchedulesResponseSize | x/incentives/types/query.pb.go:544-557 | `Size` is the length `Marshal` writes |
| IncentivesQueryCodec.SchedulesResponseToSizedBuffer | x/incentives/types/query.pb.go:475-495 | writes exactly the encoding at the end of the buffer and changes nothing before it |
| IncentivesQueryCodec.MarshalSchedulesResponse | x/incentives/types/query.pb.go:460-468 | `Marshal` returns exactly the encoding |
| IncentivesQueryCodec.SchedulesResponseField | x/incentives/types/query.pb.go:832-876 | one turn of the `Unmarshal` loop moves forward within the input |
| IncentivesQueryCodec.UnmarshalSchedulesResponse | x/incentives/types/query.pb.go:803-886 | the `Unmarshal` loop computes exactly `DecodeSchedulesResponse` |
| IncentivesQueryCodec.SchedulesResponseEntry | x/incentives/types/query.pb.go:861-865 | one entry read at any point is appended to the schedules decoded so far |
| IncentivesQueryCodec.SchedulesResponseAppends | x/incentives/types/query.pb.go:803-886 | entries read from any point on are appended, in order, after the schedules decoded so far |
| IncentivesQueryCodec.SchedulesResponseRoundTrip | x/incentives/types/query.pb.go:460-886 | unmarshalling what `Marshal` wrote into an empty response gives every schedule back, in order |
| IncentivesQueryCodec.SchedulesResponseWrongWireType | x/incentives/types/query.pb.go:833-835 | field 1 in any wire type but length-delimited is refused |
| SafetyFundProposalCodec.SizeIsLength | x/safetyfund/types/proposals.pb.go:180-205 | `Size` is the length `Marshal` writes, and only the empty proposal encodes to nothing |
| SafetyFundProposalCodec.MarshalToSizedBuffer | x/safetyfund/types/proposals.pb.go:126-167 | writes exactly the encoding, coins last and back to front, then recipient, description and title, at the end of the buffer, returns its length and changes nothing before it |
| SafetyFundProposalCodec.Marshal | x/safetyfund/types/proposals.pb.go:111-119 | `Marshal` returns exactly the encoding |
| SafetyFundProposalCodec.Field | x/safetyfund/types/proposals.pb.go:216-385 | one turn of the `Unmarshal` loop moves forward within the input |
| SafetyFundProposalCodec.Unmarshal | x/safetyfund/types/proposals.pb.go:213-392 | the `Unmarshal` loop computes exactly `Decode` |
| SafetyFundProposalCodec.StringReads | x/safetyfund/types/proposals.pb.go:242-305 | a string field as `Marshal` writes it replaces that string of the proposal decoded so far, and an empty one, which is not written, leaves the proposal alone |
| SafetyFundProposalCodec.AmountAppends | x/safetyfund/types/proposals.pb.go:338-371 | coin entries read from any point on are appended, in order, after the coins decoded so far |
| SafetyFundProposalCodec.FieldsRead | x/safetyfund/types/proposals.pb.go:213-392 | the four fields laid out in the order `Marshal` writes them are read back one by one into the proposal |
| SafetyFundProposalCodec.RoundTrip | x/safetyfund/types/proposals.pb.go:111-392 | unmarshalling what `Marshal` wrote into an empty proposal gives the proposal back |
| SafetyFundProposalCodec.WrongWireTypeRefused | x/safetyfund/types/proposals.pb.go:242-341 | fields 1 to 4 in any wire type but length-delimited are refused |
| SafetyFundProposalCodec.LengthPastEnd | x/safetyfund/types/proposals.pb.go:269-271 | a string whose length runs past the end of the input is an unexpected EOF |
| SafetyFundProposalCodec.LengthOverflow | x/safetyfund/types/proposals.pb.go:248-260 | a length varint of ten continuation bytes overflows |
| SafetyFundProposalCodec.NegativeLength | x/safetyfund/types/proposals.pb.go:261-264 | a string length that reads as a negative 64-bit integer is an invalid length |
| SafetyFundProposalCodec.StringLastWins | x/safetyfund/types/proposals.pb.go:242-305 | a string field that occurs twice keeps its later value |
| SafetyFundProposalCodec.SkipsUnknown | x/safetyfund/types/proposals.pb.go:372-384 | a length-delimited field of another number is skipped and changes nothing |
| ShuttleProposalCodec.PrependStrings | x/shuttle/types/proposals.pb.go:211-242 | writes the title, description, connection id and contract fields, in tag order, directly in front of what already sits at the end of the buffer, and changes nothing before them |
| ShuttleProposalCodec.ExecuteSizeIsLength | x/shuttle/types/proposals.pb.go:318-351 | the execute proposal's `Size` is the length its `Marshal` writes |
| ShuttleProposalCodec.ExecuteNilMsgLikeEmpty | x/shuttle/types/proposals.pb.go:205-212 | a nil and an empty contract message give the same encoding: the field is left out |
| ShuttleProposalCodec.ExecuteToSizedBuffer | x/shuttle/types/proposals.pb.go:187-242 | writes exactly the encoding, coins back to front, then the message and the four strings, at the end of the buffer, returns its length and leaves the rest of the buffer alone |
| ShuttleProposalCodec.MarshalExecute | x/shuttle/types/proposals.pb.go:172-180 | `Marshal` returns exactly the encoding |
| ShuttleProposalCodec.ExecuteField | x/shuttle/types/proposals.pb.go:398-633 | one turn of the `Unmarshal` loop moves forward within the input |
| ShuttleProposalCodec.UnmarshalExecute | x/shuttle/types/proposals.pb.go:391-636 | the `Unmarshal` loop computes exactly the decoding function |
| ShuttleProposalCodec.ExecuteStringReads | x/shuttle/types/proposals.pb.go:420-547 | a string field as `Marshal` writes it replaces that string of the proposal decoded so far; an empty one, which is not written, leaves it alone |
| ShuttleProposalCodec.ExecuteMsgReads | x/shuttle/types/proposals.pb.go:548-581 | the contract message as `Marshal` writes it is set when non-empty and leaves the proposal alone otherwise |
| ShuttleProposalCodec.ExecuteEmptyMsgIsNotNil | x/shuttle/types/proposals.pb.go:577-580 | a message field of length zero decodes to an empty, not a nil, message |
| ShuttleProposalCodec.ExecuteFundsAppend | x/shuttle/types/proposals.pb.go:582-615 | coin entries read from any point on are appended, in order, after the funds decoded so far |
| ShuttleProposalCodec.ExecuteLeadRead | x/shuttle/types/proposals.pb.go:420-483 | the title and description fields as `Marshal` writes them are read back into the proposal |
| ShuttleProposalCodec.ExecuteTargetRead | x/shuttle/types/proposals.pb.go:484-547 | the connection id and contract fields as `Marshal` writes them are read back into the proposal |
| ShuttleProposalCodec.ExecuteStringsRead | x/shuttle/types/proposals.pb.go:420-547 | the four string fields in `Marshal`'s order are read back one by one, whatever follows them |
| ShuttleProposalCodec.ExecuteTailRead | x/shuttle/types/proposals.pb.go:548-615 | the message and the coins in `Marshal`'s order are read back into the proposal |
| ShuttleProposalCodec.ExecuteFieldsRead | x/shuttle/types/proposals.pb.go:391-636 | all fields in `Marshal`'s order are read back one by one into the proposal |
| ShuttleProposalCodec.ExecuteRoundTrip | x/shuttle/types/proposals.pb.go:172-636 | unmarshalling what `Marshal` wrote into an empty proposal gives the proposal back, except that an empty contract message comes back nil |
| ShuttleProposalCodec.ExecuteWrongWireType | x/shuttle/types/proposals.pb.go:420-585 | fields 1 to 6 in any wire type but length-delimited are refused |
| ShuttleProposalCodec.ExecuteLengthPastEnd | x/shuttle/types/proposals.pb.go:420-615 | a known field whose length runs past the end of the input is an unexpected EOF |
| ShuttleProposalCodec.MigrateSizeIsLength | x/shuttle/types/proposals.pb.go:353-383 | the migrate proposal's `Size` is the length its `Marshal` writes |
| ShuttleProposalCodec.MigrateToSizedBuffer | x/shuttle/types/proposals.pb.go:259-305 | writes exactly the encoding, the message, the code id and then the four strings, at the end of the buffer, returns its length and leaves the rest of the buffer alone |
| ShuttleProposalCodec.MarshalMigrate | x/shuttle/types/proposals.pb.go:244-252 | `Marshal` returns exactly the encoding |
| ShuttleProposalCodec.MigrateField | x/shuttle/types/proposals.pb.go:644-864 | one turn of the `Unmarshal` loop moves forward within the input |
| ShuttleProposalCodec.UnmarshalMigrate | x/shuttle/types/proposals.pb.go:637-867 | the `Unmarshal` loop computes exactly the decoding function |
| ShuttleProposalCodec.MigrateStringReads | x/shuttle/types/proposals.pb.go:666-793 | a string field as `Marshal` writes it replaces that string of the proposal decoded so far; an empty one leaves it alone |
| ShuttleProposalCodec.MigrateCodeIdReads | x/shuttle/types/proposals.pb.go:794-812 | the code id as `Marshal` writes it replaces the decoded one when non-zero; a zero id is not written and leaves it alone |
| ShuttleProposalCodec.MigrateMsgReads | x/shuttle/types/proposals.pb.go:813-846 | the contract message as `Marshal` writes it is set when non-empty and leaves the proposal alone otherwise |
| ShuttleProposalCodec.MigrateLeadRead | x/shuttle/types/proposals.pb.go:666-729 | the title and description fields as `Marshal` writes them are read back into the proposal |
| ShuttleProposalCodec.MigrateTargetRead | x/shuttle/types/proposals.pb.go:730-793 | the connection id and contract fields as `Marshal` writes them are read back into the proposal |
| ShuttleProposalCodec.MigrateStringsRead | x/shuttle/types/proposals.pb.go:666-793 | the four string fields in `Marshal`'s order are read back one by one, whatever follows them |
| ShuttleProposalCodec.MigrateTailRead | x/shuttle/types/proposals.pb.go:794-846 | the code id and the message in `Marshal`'s order are read back into the proposal up to the end of the input |
| ShuttleProposalCodec.MigrateFieldsRead | x/shuttle/types/proposals.pb.go:637-867 | all fields in `Marshal`'s order are read back one by one into the proposal |
| ShuttleProposalCodec.MigrateRoundTrip | x/shuttle/types/proposals.pb.go:244-867 | unmarshalling what `Marshal` wrote into an empty proposal gives the proposal back, except that an empty contract message comes back nil |
| ShuttleProposalCodec.MigrateWrongWireType | x/shuttle/types/proposals.pb.go:666-816 | the code id in any wire type but varint is refused, and the other known fields in any but length-delimited |
| ShuttleProposalCodec.MigrateCodeIdOverflow | x/shuttle/types/proposals.pb.go:799-802 | a code id of ten continuation bytes overflows |
| ShuttleProposalCodec.MigrateSkipsUnknown | x/shuttle/types/proposals.pb.go:847-864 | a varint field of an unknown number is skipped and changes nothing |

## Left out

- Event emission, logging, telemetry and the `XXX_*`, descriptor and registration code of the generated files are not modelled: none of it decides a result.
- The other modules' keepers are parameters or plain state, each reduced to what the core reads and changes. This covers bank, staking, distribution beyond the community pool, wasm, the ICA controller, IBC channels and the message router.
- The JSON parser behind the metadata checks is a parameter that yields an abstract JSON value; JSON syntax itself is not modelled.
- Bech32 address decoding and the SDK's `ValidateAbstract` are parameters (`decode`, `abstractOk`).
- `convertToProtoMessages` takes the "is a proto message" test as a predicate on the abstract `Any` values; unpacking itself is not modelled.
- The nested `Coin`, `Schedule` and `PageRequest` codecs are defined in files not covered here. They enter as abstract codecs that round-trip. Their `Size` is the length of their encoding, and all their decoding errors collapse into one `NestedFailed` error.
- Go `int` indices: inputs and buffers are assumed shorter than 2^63 bytes. `MarshalToSizedBuffer` is given a buffer at least `Size()` long, as `Marshal` always does.
- The final `iNdEx > l` test after each `Unmarshal` loop cannot fire, since every step stays within the input; the model proves that rather than repeating the test.
- Strings: the protobuf codecs treat Go strings as byte sequences (`seq<byte>`), with no UTF-8 validation, as the generated code does. Elsewhere (metadata keys, denoms, addresses before decoding, error messages, genesis text) strings are Dafny `string`, a sequence of characters; their byte encoding plays no part there.
- IncentivesOps.Increment, IncentivesOps.IncrementAsWritten and IncentivesKeeper.Keeper.IncrementNextScheduleId: the schedule-id counter is a `nat`, so the uint64 `id + 1` wrap-around at 2^64 is not modelled. Reaching it takes 2^64 created schedules.
- Coins.Add, Dec.Mul and Dec.Quo: amounts and decimals are unbounded integers. The model leaves out the SDK's overflow panics: `sdk.Int` beyond 256 bits, and `sdk.Dec` beyond its maximum bit length in a product or quotient. A sum or share that overflows in Go is a defined value here.
- IncentivesSchedule.Unlocked, IncentivesSchedule.UnlockedOf and IncentivesSchedule.GetBlockReward: a time difference is exact integer nanoseconds. Go's `time.Time.Sub` (store.go:27-28) saturates at the int64 range, roughly 292 years, so a longer schedule releases differently in Go than in the model.
- Coins, IncentivesGenesis.Validate and IncentivesGenesis.FirstError: a coin set is a map with no zero entries, so an `sdk.Coins` list that holds a zero amount or repeats a denom cannot be stated. Go's genesis check (genesis.go:42) rejects a schedule only when `TotalAmount.Empty()`, so it accepts a total of `[{umars, 0}]`; the model cannot express that input. `IncentivesMsgs.ZeroCoinPasses` shows, on the message's coin list, that such an amount also passes `ValidateBasic`.
- GovMetadata.ProposalErrorOrder, GovMetadata.StringField and GovMetadata.StringsField: struct fields are looked up by exact-case key. Go's `json.Unmarshal` into the struct (metadata.go:40) matches field names case-insensitively, while the `delete` calls (metadata.go:48-53) are exact-case. For `{"Title":"x","authors":[],"details":"d"}` Go fills the title and reports unexpected field(s), whereas the model reports the missing title. Whether metadata is accepted is the same either way, since a case-variant key is left over as an unexpected field. Only which error is reported can differ.
- Go map iteration order is arbitrary. Where the tally walks its validator map, the model proves that the order makes no difference.
- A zero-hop channel in `SendFunds` would panic in Go at `hops[0]`; the model returns `HopIndexPanic` there.
- `sdk.Dec` is exact fixed point with the SDK's rounding; floating point plays no part.
- GovPower.BalancedIncrement: the four option totals add up to exactly the tokens voted only for a whole-token power. For other powers this is only up to the rounding of each `Dec.Mul`, because of how the SDK rounds.
- The query loops that convert legacy gov types, the incentives query server (SDK pagination) and the stock distribution allocator that runs after the custom fee split are not part of this model.
- The route and type strings of the incentives proposals are constants in the model; there is nothing to prove about them beyond their values.

## Findings

| source | as written | input that shows it | evidently intended | confidence | as-written member | corrected member |
|---|---|---|---|---|---|---|
| x/incentives/keeper/keeper.go:81-89 | `IncrementNextScheduleId` stores old + 1 and returns old + 1, so `CreateSchedule` files the new schedule under the new counter value. The callers do not match this file: schedule.go:16 and keeper/genesis.go:23,28 call `IncrementNextScheduleID`, `SetNextScheduleID` and `GetNextScheduleID`, and keys.go:25 defines `KeyNextScheduleID`, while keeper.go defines and uses the `…ScheduleId` spellings. So keeper.go comes from a different revision than its callers | next id 2: the schedule gets id 3 and the counter is 3, so genesis validation (x/incentives/types/genesis.go:30) rejects the exported state; schedule_test.go expects id 2 | return the old value, the id handed out, so that every id stays below the counter | not executed | IncentivesOps.IncrementAsWrittenBreaksGenesis | IncentivesOps.IncrementKeepsIdsBelow |
| x/gov/keeper/query_server.go:49-55 | only Passed and Rejected proposals answer with the stored final tally; a Failed proposal falls through to a live tally | a proposal that passed the tally but whose messages failed is stored as Failed with its votes deleted, so the query reports zero for every option | answer with the stored final tally for every proposal the end blocker has tallied, Failed included | not executed | GovQuery.FailedQueryForgetsTally | GovQuery.QueryAfterEnd |
