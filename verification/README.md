# Verified model of the Alula liquidation keeper

The keeper watches a lending market, sizes liquidations of under-collateralised obligations, and
submits them from a shared wallet. This project models the parts of it that decide how much to
offer, whether an offer can be paid for, and what the keeper remembers, and proves what those
decisions guarantee.

- **Sizing a no-dust liquidation** (`Liquidation`, `LiquidationLaws`, `RepaySizing`,
  `SizingTheorems`, `GrowthTheorems`, `ValueTheorems`, `CapTheorems`, `QuoteTheorems`). The market's
  verdict on an offer, the two bisections, the fitted repay. The main results: the exact set of accepted
  offers, what an accepted offer takes, keeps and refunds, which margin a clearing offer gets,
  soundness and completeness of the fitted repay, survival of a clearing offer through accrued interest, no
  overpayment in exact value through four or five roundings, and LTV that never worsens.
- **Valuation** (`Arithmetic`, `Pool`, `Profitability`, `Insolvency`). Share conversions as Galois
  connections, optimal safe withdrawals, and the two valuation paths (rounded rates, exact ratios)
  compared.
- **Who deals with bad debt** (`BadDebt`, `Eligibility`, `Liquidatable`, `Planner`,
  `PlannerTheorems`, `ProfitTheorems`). The initiator's eligibility test, the liquidator's gate and the
  liquidator's plans, each characterised exactly, and where the three agree. Every plan is funded by
  its own source and nets more than the minimum margin, and no source has one that repays more.
- **Shared capital** (`Capital`, `Execution`). The reservation table as a class and as a step
  function; no double spend over any interleaving, of the table and of the answers given, and the life
  of a reservation through dispatch, submission, confirmation and loss.
- **The obligation cache** (`ObligationCache`), **the balancer's probe** (`Balancer`), **the
  withdrawer** (`Withdrawer`) and **reading deposits** off the chain (`Codec`), which leaves one a pool.
- **Worked cases** (`WorkedCases`). Concrete obligations from the repository's own test fixtures,
  proved to get the verdicts those fixtures pin; they satisfy the hypotheses of the theorems. Beside
  them stand the inputs at which the code falls short.

Amounts are unbounded integers. Each checked 128-bit operation of the source is an explicit
`Result`, each saturating one an explicit clamp, and division truncates toward zero as in the
source. Theorems assume non-negative amounts, positive prices and a non-negative incentive
(`WellFormed`) where the source never validates them. Balances, swap quotes, simulations, network
outcomes, clocks and fresh ids are parameters, so the results hold for all of them.

The proofs use `hide` to keep the bodies of arithmetic functions out of proofs that need only what
is proved about them.

## What the code does not do

The following came out of the proofs. In each case the model follows the code.

- The supply side of the accrual estimate floors before it grows, so a supply can outgrow the
  estimate, by one token while accrual is at most a doubling
  (`SizingTheorems.SupplyShortByAtMostOne`). The estimate suffices exactly when the position's share
  of the largest supply the pool can show stays under the next token, a test on the snapshot
  (`SizingTheorems.SupplyEstimateCoversIff`); a position of plain collateral always passes it, and
  the debt side never falls short. Where it fails, the missing token can make the market refuse the
  clearing offer as dust (`WorkedCases.SupplyEstimateFallsShort`,
  `WorkedCases.OutgrownOfferIsRefused`); the offers that still clear at every later view are those
  that clear the most grown one (`GrowthTheorems.ClearsEveryGrowthIff`).
- The fitted repay can miss an offer the market would take. For a repay within the planner's cap it
  does so exactly when the close factor binds, the repay clears a side as it stands, its padded offer
  is over the close factor, and a repay of 1 does not keep both sides
  (`CapTheorems.FittedRepayCompleteWithinCap`). In `WorkedCases.PaddingMissesARepay` a planned and
  profitable repay is lost that way, and the initiator does not find the pair acceptable.
- A solvent obligation with true rates and seizable deposits reads as uncovered exactly when its exact
  debt cannot be computed, which counts as uncovered, or exceeds its seizable collateral
  (`Insolvency.SolventUncoveredIff`). The first happens when a debt's exact value leaves 128 bits, the
  second, with an insolvency LTV of at most 100%, only when a rated debt saturates under the exact one
  (`Insolvency.SolventIsCovered`, `Insolvency.UncoveredHasCause`). Such an
  obligation is put up for cover exactly when it has no open request, every deposit is under the floor,
  and no pair is an error or taken (`BadDebt.SolventEligibleIff`); with one borrow whose debt does not
  convert, exactly when the last condition reads: every deposit is in the borrow's own pool
  (`BadDebt.OneBorrowSolventEligibleIff`). `BadDebt.OverflowReadsAsUncovered` and
  `BadDebt.SaturationReadsAsUncovered` are inputs of the two kinds.
- The initiator rounds the collateral floor up where the liquidator's gate rounds it down. With one
  deposit a pool, an obligation left to the liquidator as small can meet a shut gate exactly when the
  floor is not a whole number of oracle units and the snapshot has at least as many pools weighing a
  deposit at the floor whole as the debt weighs oracle units (`Liquidatable.GateShutsIff`). No snapshot
  with two or more oracle decimals has such a floor, and no pool with a close LTV under 100% weighs
  whole. On `Liquidatable.NobodyActsAtAFractionalFloor`'s input, with a debt of one unit and a close LTV
  of exactly 100%, both strategies stand back.
- The initiator stands back when it finds an acceptable pair, and that pair has a Direct candidate for
  a wallet that can pay it, but the planner can throw the candidate away. It does so exactly when
  flash loans are enabled and the collateral it counts on receiving at once cannot be computed, is
  nothing, or backs no more than the profit margin (`PlannerTheorems.FlashSizingGivesUp` with the
  contract of `Planner.BuildPlan`). `WorkedCases.FlashSizingDropsADirectPlan` is such a pair: the
  initiator leaves it to the liquidator, and the liquidator plans nothing.
- An obligation key with an empty-string seed shares its row with the unseeded key of the same user
  and does not survive a reload (`ObligationCache.KeyRoundTrip`, `ObligationCache.UpsertMirrorsIff`).

## Model

| member | source | states |
|---|---|---|
| `LiquidationLaws.BuysMonotone` | engine/src/lending_model/liquidation.rs:644-668 | the collateral a repay buys is monotone in the repay, and defined below any repay where it is defined, through every rounding |
| `LiquidationLaws.Verdict` | engine/src/lending_model/liquidation.rs:605-641 | an offer is accepted exactly when it is within the close factor (if that binds) and either clears a side or keeps both sides at the floor; a non-clearing acceptance buys exactly what the repay buys |
| `LiquidationLaws.KeepsDownward` | engine/src/lending_model/liquidation.rs:769-779 | keeping both sides at or above the floor is downward closed in the repay |
| `QuoteTheorems.LiftedIff` | engine/src/lending_model/liquidation.rs:483-486 | the close factor and the LTV cap are lifted exactly for an insolvent obligation or, on a no-dust market, a pair with a side under twice the floor |
| `QuoteTheorems.FloorOfCents` | engine/src/lending_model/liquidation.rs:708-714 | the dust floor is the market's cents in whole oracle units, rounded down |
| `QuoteTheorems.BuysExactly` | engine/src/lending_model/liquidation.rs:644-668 | what a repay buys through every rounding: its value's collateral and the incentive, bounded unless lifted by 99.9% of its share of the obligation's collateral |
| `QuoteTheorems.WholePositionIsLeast` | engine/src/lending_model/liquidation.rs:676-689 | the price of the whole position is the least repay whose value and incentive carry it |
| `QuoteTheorems.AcceptedExactly` | engine/src/lending_model/liquidation.rs:605-641 | an accepted offer takes exactly what the repay buys, up to the position, and keeps the whole repay, except that of a small position sold whole it keeps the least part that pays for it |
| `QuoteTheorems.IdleOffersMoveNothing` | engine/src/lending_model/liquidation.rs:291-391 | an offer of nothing, or against nothing, moves nothing |
| `RepaySizing.LeastBuyingIsLeast` | engine/src/lending_model/liquidation.rs:732-747 | the reference scan finds the least repay buying the target |
| `RepaySizing.FindRepayBuying` | engine/src/lending_model/liquidation.rs:732-747 | the bisection returns the scan's least repay in [1, debt], or none exactly when the whole debt falls short |
| `RepaySizing.FindClearing` | engine/src/lending_model/liquidation.rs:726-764 | the clearing computed with two bisections is the specified one: least clearing repay at the snapshot, padded clearing of the grown pair |
| `RepaySizing.GreatestKeepingIsGreatest` | engine/src/lending_model/liquidation.rs:783-790 | the reference scan finds the greatest repay keeping both sides |
| `RepaySizing.FindLargestPartialRepay` | engine/src/lending_model/liquidation.rs:766-793 | the second bisection returns the scan's greatest repay; whatever it returns lies in [1, upper] and is accepted |
| `RepaySizing.FitRepay` | engine/src/lending_model/liquidation.rs:511-547 | any offer returned on a no-dust market is accepted, and within the budget when the planned repay is; it equals the specified fitted repay |
| `SizingTheorems.ClearsFromSnapshot` | engine/src/lending_model/liquidation.rs:726-763 | the snapshot clearing is the least repay that takes the collateral or pays the debt, in both directions |
| `SizingTheorems.AcceptedShape` | engine/src/lending_model/liquidation.rs:605-641 | the offers a lifted pair accepts are exactly [1, edge] and [snapshot, infinity); everything between is refused as dust, never for the close factor |
| `CapTheorems.AcceptedUnderCloseFactor` | engine/src/lending_model/liquidation.rs:605-641 | lifted or not, the offers accepted are exactly those of [1, edge] and [snapshot, infinity) whose share of the debt is within the close factor where it binds |
| `SizingTheorems.PaddedOfferAtLeastSnapshot` | engine/src/lending_model/liquidation.rs:748-763 | the padded offer is never under the least clearing repay |
| `QuoteTheorems.ClearingOfferExactly` | engine/src/lending_model/liquidation.rs:748-763 | the clearing offer is the least repay buying the grown collateral, or the grown debt, plus exactly its margin: the refunded one past the debt or past a small position's collateral, the other otherwise |
| `SizingTheorems.FittedRepayClosedForm` | engine/src/lending_model/liquidation.rs:511-547 | the fitted repay of a lifted pair in closed form over edge, snapshot, padded offer and budget |
| `SizingTheorems.FittedRepayComplete` | engine/src/lending_model/liquidation.rs:511-547 | when the fitted repay of a lifted pair is none, no offer in [1, repay] is accepted and the padded clearing is out of budget |
| `CapTheorems.FittedRepayCompleteWithinCap` | engine/src/lending_model/liquidation.rs:511-547 | lifted or not, the fit of a repay within the cap misses an acceptable offer exactly when the close factor binds, the repay is at or over the snapshot clearing, its padded offer is over the close factor, and a repay of 1 does not keep both sides |
| `CapTheorems.UnfittedRepay` | engine/src/lending_model/liquidation.rs:511-547 | when the fit is none, nothing in [1, repay] is accepted exactly when the repay is under the snapshot clearing; otherwise the repay itself is acceptable |
| `WorkedCases.PaddingMissesARepay` | engine/src/lending_model/liquidation.rs:511-603 | a planned repay of 1 the market would take for 110 units against 100 is padded to 2, refused for the close factor and fitted to none, so the pair is not acceptable |
| `WorkedCases.CoarseIsBuilt` | engine/src/lending_model/liquidation.rs:428-481 | that pair is what an obligation of a solvent borrower and its market build |
| `SizingTheorems.ClearingSurvivesAccrual` | engine/src/lending_model/liquidation.rs:748-763 | a clearing offer is accepted at every later lifted view with the same terms whose debt and supply stayed within the estimate |
| `SizingTheorems.AccrualEstimateCoversDebt` | engine/src/lending_model/pool.rs:53-64 | debt converted at a total grown linearly at the pool's APY stays within the accrual estimate the clearing is sized for |
| `SizingTheorems.SupplyEstimateCoversIff` | engine/src/lending_model/pool.rs:53-64 | the supply stays within the estimate at every total grown linearly at the pool's APY exactly when its share of the largest such total is under the next token |
| `SizingTheorems.SupplyShortByAtMostOne` | engine/src/lending_model/pool.rs:53-64 | the supply outgrows the estimate by one token at most while accrual is at most a doubling |
| `SizingTheorems.ClearingSurvivesLinearGrowth` | engine/src/lending_model/liquidation.rs:748-763 | a clearing offer sized for accrual until a time is accepted then, still lifted, in pools grown at most linearly at their APYs, whenever the supply passes the snapshot test |
| `SizingTheorems.PlainCollateralPasses` | engine/src/lending_model/pool.rs:53-64 | a position without supplied shares passes that test at every time |
| `GrowthTheorems.ClearsEveryGrowthIff` | engine/src/lending_model/liquidation.rs:748-763 | an offer clears a side at every later view grown at most linearly exactly when it does at the most grown one |
| `GrowthTheorems.MostGrownClearingSurvives` | engine/src/lending_model/liquidation.rs:748-763 | such an offer, its margin included, is accepted at every later lifted view |
| `WorkedCases.SupplyEstimateFallsShort` | engine/src/lending_model/pool.rs:53-64 | shares worth 900000000 tokens are estimated to grow to 900180000 in a year at 2 basis points, and grow to 900180001 within it |
| `WorkedCases.OutgrownOfferIsRefused` | engine/src/lending_model/liquidation.rs:748-763 | there the clearing offer sized for the year leaves the missing token behind and is refused as dust |
| `WorkedCases.LaggedIsBuilt` | engine/src/lending_model/liquidation.rs:428-481 | that pair is what an insolvent obligation and its market build |
| `ValueTheorems.NoOverpay` | engine/src/lending_model/liquidation.rs:605-689 | an accepted quote stays within position, debt and offer, and its seizure is worth, exactly, at most the repaid debt and either pool's incentive, refunds included |
| `ValueTheorems.AcceptedLeavesNoDust` | engine/src/lending_model/liquidation.rs:631-641 | an accepted offer leaves nothing on one side or both sides at the floor; only a small position sold whole is refunded |
| `ValueTheorems.LtvNeverWorsens` | engine/src/lending_model/liquidation.rs:655-668 | while the LTV cap binds, the seized share of the collateral value is at most 0.999 of the repaid share of the debt value, exactly |
| `ValueTheorems.WholePositionCoversCollateral` | engine/src/lending_model/liquidation.rs:676-689 | the price of a whole small position covers it at the incentive, exactly |
| `CapTheorems.CloseFactorDual` | engine/src/lending_model/liquidation.rs:274-284 | the market's ceil check and the planner's floor cap agree for every repay while the cap does not saturate; a saturated cap only errs on the safe side |
| `CapTheorems.OverCloseFactorIff` | engine/src/lending_model/liquidation.rs:617-630 | the close-factor refusal happens exactly when the pair is not lifted and the repaid share of the debt exceeds the factor |
| `CapTheorems.CapNeverOverCloseFactor` | engine/src/lending_model/liquidation.rs:274-284 | a repay within the planner's cap is never over the close factor, so its verdict is decided by clearing or keeping both sides |
| `CapTheorems.PartialRepaySucceeds` | engine/src/lending_model/liquidation.rs:766-793 | within the cap the partial search succeeds exactly when a repay of 1 keeps both sides, and returns the greatest repay that does |
| `CapTheorems.SweepLeavesNoDust` | engine/src/lending_model/liquidation.rs:291-391 | a sweep quote stays within the position and takes all of it, or at most the incentive and LTV cap while the rest is worth the floor |
| `QuoteTheorems.SweepExactly` | engine/src/lending_model/liquidation.rs:291-391 | a sweep quote keeps the repay and hands out what it buys within position and LTV cap, or the whole position where the rest would be under the floor |
| `QuoteTheorems.SweepPositionExactly` | engine/src/lending_model/liquidation.rs:291-335 | a sweep market counts the supply at the rounded-down rate and the plain collateral |
| `CapTheorems.TwoStepCapBracket` | engine/src/lending_model/liquidation.rs:336-349 | the cap through a 1e9 health factor never exceeds the one-product cap and falls short of it by less than repaid value / 1e9 + 1 |
| `Pool.ConversionGalois` | engine/src/lending_model/pool.rs:91-142 | the fewest shares worth some tokens and the most tokens some shares are worth are adjoint (j- and d-tokens alike) |
| `Pool.ConversionGaloisDual` | engine/src/lending_model/pool.rs:104-185 | the dual adjunction of the ceil share-to-token and floor token-to-share conversions |
| `Pool.ConversionRoundTrips` | engine/src/lending_model/pool.rs:91-200 | from shares or from tokens, flooring there and back never gains, ceiling there and back never loses |
| `Pool.ConversionBracketMonotone` | engine/src/lending_model/pool.rs:91-200 | in both directions, floor <= ceil <= floor + 1, and both conversions are monotone |
| `Pool.MaxSafeWithdrawalOptimal` | engine/src/lending_model/pool.rs:202-244 | the safe withdrawal is the greatest amount keeping utilization within the safe band, 0 when none does; the shortcut on current utilization changes nothing |
| `Pool.AvailableReachesTheLimit` | engine/src/lending_model/pool.rs:74-89 | what is available for borrowing brings utilization to the limit within one basis point and one token, and is nothing past the limit |
| `Pool.AccrualExactly` | engine/src/lending_model/pool.rs:53-64 | the accrual is the APY times the time since the update, over a year, rounded up, on either side |
| `Pool.EmptyPools` | engine/src/lending_model/pool.rs:91-200 | without shares nothing converts to tokens, and without tokens a token buys one share |
| `Pool.FlashLoanBit` | engine/src/lending_model/pool.rs:49-51 | flash loans are on exactly when bit 3 of the status flags is set, whatever the others |
| `Withdrawer.FindWithdrawalOpportunities` | keeper/src/strategy/withdrawer.rs:157-244 | the scan over deposits yields the specified withdrawals, dropping all of them when a value cannot be computed |
| `Withdrawer.WithdrawnExactly` | keeper/src/strategy/withdrawer.rs:157-244 | a deposit is withdrawn from exactly when the most that may leave it is worth the minimum, by that much or the sentinel, and ends the scan exactly when that value cannot be computed |
| `Withdrawer.ScanExactly` | keeper/src/strategy/withdrawer.rs:157-244 | the scan makes every deposit's withdrawal in order, or none when one of them ends it |
| `Withdrawer.WithdrawalsSafe` | keeper/src/strategy/withdrawer.rs:157-244 | every withdrawal takes a positive part of one deposit, at most all of it, and leaves its pool within safe utilization |
| `Withdrawer.WithdrawalsJointlySafe` | keeper/src/strategy/withdrawer.rs:157-244 | no pool of an obligation is drawn on twice, so the withdrawals are safe together |
| `Codec.ParseDepositPositions` | keeper/src/stellar/xdr_codec.rs:220-254 | the loop over map entries yields the specified deposits, skipping bad keys and fields and failing on a value that is no map |
| `Codec.ParsedDepositsDistinct` | keeper/src/stellar/xdr_codec.rs:220-254 | the deposits read off a map are in distinct pools |
| `Codec.ReadsExactly` | keeper/src/stellar/xdr_codec.rs:220-254 | exactly the entries with an address and both fields are read, with those fields; the read fails exactly when a pool's value is no map |
| `Insolvency.ComputeObligationDebtValue` | engine/src/lending_model/liquidation.rs:221-243 | the accumulating loop is the checked total of the rounded-up debt values |
| `Insolvency.ComputeObligationCollateralValue` | engine/src/lending_model/liquidation.rs:246-267 | the accumulating loop is the checked total of the rounded-down collateral values |
| `Insolvency.InsolventIff` | engine/src/lending_model/liquidation.rs:932-960 | a valued obligation is insolvent exactly when its debt, in basis points, passes one basis point under the insolvency LTV of its collateral, or it owes with no collateral |
| `Insolvency.InsolvencyDecidedIff` | engine/src/lending_model/liquidation.rs:932-960 | the verdict is an error exactly when a total it needs is, or the ratio leaves 128 bits |
| `Insolvency.RateDebtExactly` | engine/src/lending_model/liquidation.rs:232-239 | a borrow's rated value rounds its shares at the rate up, and their price up |
| `Insolvency.RateCollateralExactly` | engine/src/lending_model/liquidation.rs:257-263 | a deposit's rated value rounds its shares at the rate down, adds plain collateral, and rounds the price down |
| `Insolvency.ExactDebtExactly` | engine/src/lending_model/liquidation.rs:902-911 | a borrow's exact value rounds its share of the borrowed total up, and the price up |
| `Insolvency.SeizableExactly` | engine/src/lending_model/liquidation.rs:916-925 | a deposit's seizable value is nothing without a positive close LTV, else its share of the supply and its plain collateral, rounded down |
| `Insolvency.ComputeSeizableCollateralCoversDebt` | engine/src/lending_model/liquidation.rs:896-929 | the two accumulating loops decide the cover test, counting unvaluable debt as uncovered and unseizable deposits as nothing |
| `Insolvency.RateDebtCoversExact` | engine/src/lending_model/liquidation.rs:232-239 | a debt valued through the ceil rate is never under its exact ratio |
| `Insolvency.RateSupplyWithinExact` | engine/src/lending_model/liquidation.rs:257-263 | a supply valued through the floor rate is never over its exact ratio |
| `Insolvency.ExactDebtFailsIff` | engine/src/lending_model/liquidation.rs:902-911 | where no rate saturates, the exact total of a valued debt fails exactly when some borrow's conversion leaves 128 bits |
| `Insolvency.SolventUncoveredIff` | engine/src/lending_model/liquidation.rs:896-960 | on a solvent obligation with debt the cover test is false exactly when the exact debt cannot be computed or exceeds the seizable collateral |
| `Insolvency.SolventIsCovered` | engine/src/lending_model/liquidation.rs:896-960 | where no rate saturates the collateral of a solvent obligation covers its exact debt, so the cover test is false exactly when that debt cannot be computed |
| `Eligibility.EligibleForCoverIff` | keeper/src/strategy/bad_debt_request_initiator.rs:262-348 | solvent or not: eligible exactly when it owes, has no open request and holds no deposit or only deposits at or under the floor, and on a no-dust market with deposits is uncovered with no pair an error or one the liquidator would take |
| `Eligibility.DebtWithoutCollateralIsEligible` | keeper/src/strategy/bad_debt_request_initiator.rs:282-286 | plain bad debt without any collateral is eligible in every market under both rules |
| `BadDebt.SolventEligibleIff` | keeper/src/strategy/bad_debt_request_initiator.rs:262-348 | a no-dust initiator finds a solvent obligation with debt eligible exactly when it has no open request and every deposit under the floor, its exact debt cannot be computed or exceeds the seizable collateral, and no pair is an error or taken |
| `BadDebt.OneBorrowSolventEligibleIff` | keeper/src/strategy/bad_debt_request_initiator.rs:262-348 | with one borrow whose debt does not convert, the last two conditions come down to every deposit being in the borrow's pool |
| `BadDebt.SolventNeverEligible` | keeper/src/strategy/bad_debt_request_initiator.rs:262-348 | a solvent obligation with debt is never eligible when no rate saturates and its exact debt can be computed, nor, saturating or not, when a borrow whose debt does not convert has a deposit in another pool |
| `BadDebt.OverflowReadsAsUncovered` | engine/src/lending_model/liquidation.rs:902-915 | a token of debt against two of plain collateral in one pool of 20 decimals: solvent at 50%, uncovered, and eligible for cover |
| `BadDebt.SaturationReadsAsUncovered` | engine/src/lending_model/liquidation.rs:902-915 | a debt whose rate saturates at half its exact value of 4, against collateral of 3 in the same pool: solvent, computable, uncovered and eligible for cover |
| `Liquidatable.ComputeIsLiquidatable` | engine/src/lending_model/liquidation.rs:82-164 | the liquidator's gate, loops included, computes the specified verdict |
| `Liquidatable.LiquidatableIff` | engine/src/lending_model/liquidation.rs:82-164 | liquidatable exactly when it holds collateral and its weighted debt exceeds its weighted collateral less the floor a deposit, which on a sweep market must not exceed that collateral |
| `Liquidatable.WeightedDebtExactly` | engine/src/lending_model/liquidation.rs:98-118 | a borrow weighs its rated value times the liability factor, rounded up; an unpriced one nothing |
| `Liquidatable.WeightedCollateralExactly` | engine/src/lending_model/liquidation.rs:124-146 | a deposit weighs its rated value times the close LTV, rounded down; an unpriced one nothing |
| `Liquidatable.HoldsCollateralIff` | engine/src/lending_model/liquidation.rs:199-213 | a deposit counts as collateral when it has plain collateral or supply its rate values at a token |
| `Liquidatable.SmallObligationsAreLiquidatable` | engine/src/lending_model/liquidation.rs:82-164 | an owing, collateral-holding obligation with every deposit at or under the floor passes the no-dust gate when the floor is whole or no deposit's pool weighs the floor whole |
| `Liquidatable.WholeFromTwoDecimals` | keeper/src/strategy/bad_debt_request_initiator.rs:286-292 | with two oracle decimals or more every floor is a whole number of units |
| `Liquidatable.ShutGateHasCause` | engine/src/lending_model/liquidation.rs:82-164 | a small obligation with one deposit a pool meets a shut gate only under a fractional floor, with as many pools weighing it whole as the debt weighs |
| `Liquidatable.FractionalFloorShutsTheGate` | engine/src/lending_model/liquidation.rs:82-164 | any debt with that many such pools has deposits, one a pool, that make a small obligation the gate is shut to |
| `Liquidatable.GateShutsIff` | engine/src/lending_model/liquidation.rs:82-164 | for given borrows the gate can shut on a small obligation with one deposit a pool exactly when the floor is fractional and at least as many pools weigh it whole as the debt weighs oracle units |
| `Liquidatable.NobodyActsAtAFractionalFloor` | keeper/src/strategy/bad_debt_request_initiator.rs:286-330 | with a floor of 1.5 units and a close LTV of exactly 100%, an obligation the initiator finds ineligible and the gate is shut to |
| `Planner.QuoteIgnoresAccrual` | engine/src/lending_model/liquidation.rs:491-509 | accrual estimates and margins never change a verdict, so plans are quoted on a pair without them |
| `Planner.BestSwapQuote` | keeper/src/strategy/liquidator.rs:1347-1369 | the best quote is a positive one of a configured provider that no other provider beats; none exactly when no quote is positive |
| `Planner.BestSwapBase` | keeper/src/strategy/liquidator.rs:1371-1393 | the cheapest price is a positive one of a configured provider that no other provider undercuts; none exactly when no price is positive |
| `Planner.TryFlashPlan` | keeper/src/strategy/liquidator.rs:1055-1182 | a flash plan fits the pool's liquidity, swaps exactly the seized collateral on a no-dust market, its best quote less slippage repays loan and fee, and it nets over the margin; none only when there is none |
| `Planner.SwapFrom` | keeper/src/strategy/liquidator.rs:1197-1263 | an asset is swapped at the best price for the whole repay where its usable balance affords that with slippage, else whole at the best quote less slippage |
| `Planner.PreSwapFrom` | keeper/src/strategy/liquidator.rs:1197-1322 | an asset offers a plan exactly when its fitted repay nets over the margin, and ends the search exactly when what that repay seizes or nets cannot be told |
| `Planner.TryPreSwapPlan` | keeper/src/strategy/liquidator.rs:1185-1345 | a pre-swap plan spends at most the swappable balance on a quoted swap whose guaranteed output covers the repay and nets over the margin; it is the first of the largest the assets offer, and none when one of them ends the search |
| `Planner.LargestPlan` | keeper/src/strategy/liquidator.rs:987-989 | the chosen candidate is the last of those that repay the most |
| `Planner.BuildPlan` | keeper/src/strategy/liquidator.rs:728-989 | every plan is accepted by the market, funded by its own source, and nets its gain less its cost at what the market keeps, over the minimum margin; it is a candidate of one of the three sources, none of which has one repaying more; there is none exactly when no source has one, nothing is planned, a sweep pair is under the floor, or flash sizing gives up |
| `ProfitTheorems.UsableLeavesMargin` | keeper/src/strategy/liquidator.rs:853-860 | what may be spent of a balance leaves the XLM safety margin whole |
| `ProfitTheorems.UsableIsAll` | keeper/src/strategy/liquidator.rs:853-860 | any amount that leaves the margin may be spent |
| `ProfitTheorems.UnreadableLendsNothing` | keeper/src/strategy/liquidator.rs:842-852 | a balance that cannot be read lends a Direct plan nothing |
| `ProfitTheorems.PlansLeaveTheMargin` | keeper/src/strategy/liquidator.rs:853-860 | whatever a plan spends of the wallet, a Direct repay or a pre-swap, leaves the XLM safety margin whole |
| `ProfitTheorems.SlippageExactly` | keeper/src/strategy/liquidator.rs:1118-1121 | the slippage allowance comes off a swap's yield and on its cost |
| `ProfitTheorems.EffectiveIncentiveIff` | engine/src/lending_model/profitability.rs:84-104 | the effective incentive is the largest within the pools' that, on a solvent obligation, takes at most 99.9% of the collateral's share |
| `ProfitTheorems.EffectiveIncentiveDefinedIff` | engine/src/lending_model/profitability.rs:93-106 | the effective incentive is computed unless a solvent obligation owes nothing or its collateral leaves 128 bits |
| `ProfitTheorems.BackingExactly` | engine/src/lending_model/profitability.rs:122-128 | the value backing a borrow token is its price at the effective incentive, rounded down |
| `ProfitTheorems.RepayCapIff` | engine/src/lending_model/profitability.rs:66-135 | a repay is within the cap exactly when it is feasible and the collateral backs it and the profit margin at the effective incentive |
| `ProfitTheorems.RepayCapDefinedIff` | engine/src/lending_model/profitability.rs:66-135 | the cap is computed exactly when something is available, both pools are priced and no step of it leaves 128 bits or divides by nothing |
| `ProfitTheorems.ProfitMarginExactly` | engine/src/lending_model/profitability.rs:35-64 | the margin is the fewest borrow tokens worth its cents, rounded up; a negative one a loss budget of that size |
| `ProfitTheorems.ProfitMarginDefinedIff` | engine/src/lending_model/profitability.rs:35-64 | the margin is computed exactly when the pool is priced and no step of the conversion leaves 128 bits |
| `ProfitTheorems.PlannedRepayIsGreatest` | engine/src/lending_model/liquidation.rs:551-584 | the planned repay is the greatest within the debt, the close factor where it binds, and what the collateral backs beside the margin |
| `ProfitTheorems.PlannedRepayIsTheCap` | engine/src/lending_model/liquidation.rs:551-584 | the planned repay is the repay cap of the whole collateral wherever that is computed and positive |
| `ProfitTheorems.PairExactly` | engine/src/lending_model/liquidation.rs:434-466 | a fresh pair is the debt of the obligation's borrow in the pool against the deposit, at the obligation's rated values, with no accrual and the initial margin |
| `ProfitTheorems.PlanningPairExactly` | keeper/src/strategy/liquidator.rs:795-806 | the planner sizes the fresh pair for both pools' accrual until now, with the margin asked for |
| `ProfitTheorems.AcceptablePairIff` | engine/src/lending_model/liquidation.rs:868-886 | a pair is acceptable exactly when its fitted repay is accepted, seizes something, burns a share and nets more than the margin |
| `ProfitTheorems.BurnsShareIff` | engine/src/lending_model/liquidation.rs:877-883 | part of a debt burns a share exactly when it is worth one |
| `ProfitTheorems.SaturatingExactly` | engine/src/lending_model/liquidation.rs:587-603 | the saturating values of the profit test are the floor values wherever those can be computed |
| `ProfitTheorems.MinMarginExactly` | engine/src/lending_model/liquidation.rs:587-603 | the minimum margin is its cents in oracle units, rounded toward zero |
| `ProfitTheorems.FlashFeeExactly` | engine/src/lending_model/profitability.rs:11-25 | the flash fee is its basis points of the loan, rounded up |
| `PlannerTheorems.AcceptableIsPlanned` | engine/src/lending_model/liquidation.rs:549-603 | a pair the initiator accepts has a Direct candidate with the same repay, seizure and net value for any wallet that can pay it |
| `PlannerTheorems.InitiatorWitnessedByPlanner` | engine/src/lending_model/liquidation.rs:838-890 | when the initiator sees an acceptable liquidation, some seizable pair is the very pair the planner sizes and has a Direct candidate for |
| `PlannerTheorems.EligibleLeavesNothing` | keeper/src/strategy/bad_debt_request_initiator.rs:332-347 | an obligation with deposits found eligible is uncovered and has no acceptable pair at all |
| `PlannerTheorems.CapPositiveIff` | engine/src/lending_model/profitability.rs:66-135 | a repay cap computed for some collateral is computed for any less, and is positive exactly when that backs more than the margin |
| `PlannerTheorems.FlashSizingGivesUp` | keeper/src/strategy/liquidator.rs:904-959 | for a planned pair, flash sizing gives up exactly when flash loans are on and the instantly available collateral cannot be computed, is nothing, or backs no more than the margin |
| `WorkedCases.FlashSizingDropsADirectPlan` | keeper/src/strategy/liquidator.rs:904-959 | $4.50 of supplied gold against $1: acceptable to the initiator, a Direct candidate for $2, and flash sizing gives it up |
| `CapTheorems.WalletFitsUnlimited` | engine/src/lending_model/liquidation.rs:511-547 | a repay fitted with unlimited capital is the repay fitted to any wallet that can pay it and the clearing offer |
| `Capital.LiquidatorCapital.CommittedOf` | keeper/src/liquidator_capital.rs:84-90 | the loop over reservations computes what the table commits of a token |
| `Capital.LiquidatorCapital.Reserve` | keeper/src/liquidator_capital.rs:67-106 | the table and outcome after a reserve are those of the step function |
| `Capital.LiquidatorCapital.TryGetBalance` | keeper/src/liquidator_capital.rs:113-146 | a fresh cached balance is returned untouched; otherwise the ledger's, which refreshes the cache |
| `Capital.CommittedSubTable` | keeper/src/liquidator_capital.rs:84-90 | dropping reservations never commits more of any token |
| `Capital.ReserveGrantsIff` | keeper/src/liquidator_capital.rs:67-106 | a reserve is granted exactly when its positive amount fits beside what is committed; a grant commits that much more of its token and changes no other, a refusal records nothing |
| `Capital.NoDoubleSpend` | keeper/src/liquidator_capital.rs:67-111 | over every interleaving of reserve, release and clock steps, with any ids, unexpired reservations in the table never exceed the wallet the reserves were shown |
| `Capital.GrantsStayWithinWallet` | keeper/src/liquidator_capital.rs:67-111 | over every interleaving, what was granted by the answers, and is neither released nor expired, never exceeds the wallet |
| `Capital.SafetyMarginUntouched` | keeper/src/strategy/liquidator.rs:1544-1548 | from an empty table the XLM safety margin is never committed |
| `Execution.Dispatch` | keeper/src/strategy/liquidator.rs:1496-1602 | dispatching changes the table as specified: reserve, build, and release the id when the build fails |
| `Execution.DispatchedIff` | keeper/src/strategy/liquidator.rs:1496-1602 | a plan is dispatched exactly when its operation is built and, for own capital, its balance is read and its amount fits |
| `Execution.DispatchedHolds` | keeper/src/strategy/liquidator.rs:1496-1602 | a dispatched own-capital plan holds a reservation of its amount in its token; a flash plan holds none |
| `Execution.UndispatchedLeavesNothing` | keeper/src/strategy/liquidator.rs:1496-1602 | with a fresh id, an undispatched plan leaves exactly the reservations that counted before |
| `Execution.SubmissionBounded` | keeper/src/execute/stellar_tx.rs:113-172 | the submission loop settles within max(1, max retries) attempts, on the first attempt that decides it |
| `Execution.Execute` | keeper/src/execute/stellar_tx.rs:89-214 | the executor's outcome and attempts are the specified ones; every outcome but success releases the hook at once |
| `Execution.ConfirmationPoll` | keeper/src/execute/stellar_tx.rs:217-269 | the poll releases the hook once on every path and realises a profit only on confirmation |
| `Execution.Settle` | keeper/src/execute/stellar_tx.rs:89-269 | from receipt to settlement the hook is released exactly once, whatever the network does |
| `Execution.ReservationsAccounted` | keeper/src/execute/stellar_tx.rs:36-47 | over every run, each reservation belongs to an action in flight or to one that was lost |
| `Execution.InFlightHoldsCapital` | keeper/src/execute/stellar_tx.rs:36-47 | over every run, an own-capital action in flight holds the reservation it was dispatched with until that expires |
| `Execution.EventOnOneAction` | keeper/src/execute/stellar_tx.rs:36-47 | a dispatch puts its action in flight, a settlement or a loss takes it out, and nothing else does either |
| `Execution.NothingLeaks` | keeper/src/liquidator_capital.rs:36-38 | once the executor owes nothing only lost actions hold reservations, and none counts a time-to-live after its loss |
| `ObligationCache.KeyRoundTrip` | engine/src/lending_model/obligation.rs:7-25 | a key reads back from its row exactly when its seed is not the empty string |
| `ObligationCache.ObligationsRepo.LoadAll` | keeper/src/storage/obligations.rs:31-53 | the loop over rows loads the specified map |
| `ObligationCache.ObligationStore.SyncState` | keeper/src/strategy/liquidator.rs:181-210 | memory and table after a sync are those of the step function |
| `ObligationCache.ObligationStore.UpsertObligation` | keeper/src/strategy/liquidator.rs:360-377 | memory and table after an upsert are those of the step function |
| `ObligationCache.ObligationStore.DeleteObligation` | keeper/src/strategy/liquidator.rs:379-386 | memory and table after a delete are those of the step function |
| `ObligationCache.EventOnOneKey` | keeper/src/strategy/liquidator.rs:322-386 | an upsert sets its key in memory and store, a removal clears both, a sweep clears the store, and no other key or row changes |
| `ObligationCache.SyncOnOneKey` | keeper/src/strategy/liquidator.rs:181-210 | a re-sync sets a synced market's memory to the stored rows under keys that read back, and changes nothing else |
| `ObligationCache.DropGone` | keeper/src/strategy/bad_debt_request_initiator.rs:72-120 | the initiator's sweep drops exactly the rows worth a look that are gone on chain, and changes no other |
| `ObligationCache.SyncMirrorsExactly` | keeper/src/strategy/liquidator.rs:181-210 | right after a sync, memory is exactly what is stored |
| `ObligationCache.StoredStaysInMemory` | keeper/src/strategy/liquidator.rs:322-386 | over every interleaving of liquidator events, re-syncs and sweeps the stored table stays a sub-map of memory |
| `ObligationCache.UpsertMirrorsIff` | keeper/src/strategy/liquidator.rs:360-377 | one upsert keeps the invariant exactly when its key is storable or the unseeded key already holds the same obligation |
| `Balancer.ImpactIgnoresDecimals` | keeper/src/strategy/balancer.rs:497-529 | giving either token more decimals, and its amount as many zeros, changes neither the realised price nor the impact |
| `Balancer.ExecutionPriceOverWholeTokens` | keeper/src/strategy/balancer.rs:513-522 | either branch of the decimals correction computes the quotient of the amounts in whole tokens |
| `Balancer.AdmittedShortfall` | keeper/src/strategy/balancer.rs:524-527 | an impact is within the cap exactly when the price falls short by less than the cap and one basis point |
| `Balancer.ViableIff` | keeper/src/strategy/balancer.rs:384-429 | a probe is viable exactly when the quote answers, the comparison can be made, and the price falls short by less than the cap and one basis point |
| `Balancer.HalvedIsShift` | keeper/src/strategy/balancer.rs:384-429 | the i-th probed amount is floor(balance / 2^i) |
| `Balancer.ProbeProvider` | keeper/src/strategy/balancer.rs:365-432 | for any quotes, the search returns the first halving that is not too steep, stops at an incomparable or failed quote, and gives up only after every probe |
| `WorkedCases.SmallPositionNeedsItsWholeDebt` | engine/src/lending_model/liquidation.rs:1254-1277 | half the debt of $4.50 / $1 leaves dust; the fitted offer is 1.01 and pays 1 for 1.10; supplied gold gets the same |
| `WorkedCases.RefundsDownToTheCollateral` | engine/src/lending_model/liquidation.rs:1289-1303 | $1.05 of gold against $1: a unit short leaves dust, the fitted offer pads the least repay taking it all, and the market keeps 0.9545455 of it, or of twice the debt |
| `WorkedCases.SweepTakesTheLeftover` | engine/src/lending_model/liquidation.rs:1218-1242 | a sweep market hands out a small position whole for half its debt, and an insolvent leftover under the floor with the rest |
| `WorkedCases.AccruedDebtIsCleared` | engine/src/lending_model/liquidation.rs:1402-1421 | the padded offer clears the debt accrued in 30 days at 20%, paying 1.0164 for 1.11804; the stale exact debt is refused as dust |
| `WorkedCases.StaleOfferSurvives` | engine/src/lending_model/liquidation.rs:1402-1421 | the survival theorem applies to that pair, sized by its pool's 30 idle days at 20%, and its accrued view |
| `WorkedCases.CloseFactorBindsAtTwiceTheFloor` | engine/src/lending_model/liquidation.rs:1318-1328 | $5 of $10.50 / $10 is accepted for 5.24475; one unit more is over the close factor |
| `WorkedCases.TwiceMeetsTheTheorems` | engine/src/lending_model/liquidation.rs:1318-1328 | there $5 is the last repay within the cap, and the seized share of the collateral is under 0.999 of the repaid share of the debt |
| `WorkedCases.SmallIsPlannedByTheLiquidator` | keeper/src/strategy/liquidator.rs:992-1052 | the Direct candidate for $4.50 / $1 with a $2 wallet offers 1.01, seizes 1.10 and nets ten cents |
| `WorkedCases.TenCentsAreNoPlanAtFifteen` | keeper/src/strategy/liquidator.rs:1029-1033 | the repay that nets ten cents is a plan at no margin and none at fifteen cents |
| `WorkedCases.SolventDustIsLeftToLiquidation` | keeper/src/strategy/bad_debt_request_initiator.rs:432-455 | solvent dust is not eligible for cover and passes the liquidator's gate |
| `WorkedCases.DustMeetsTheGate` | keeper/src/strategy/bad_debt_request_initiator.rs:432-455 | that dust is small and owing under a whole floor, so the gate theorem applies to it |

## Left out

- RPC clients, simulation, signing, fees, XDR and event decoding: I/O and foreign libraries; reads and outcomes are parameters of the model.
- The reactor and the collectors: concurrency appears only as interleaved steps on the capital table and the cache.
- Metrics, logging, readiness, configuration loading, SQL and JSON: the stored table is a map from (market, user, seed) to an obligation.
- The on-chain contract: the model mirrors the keeper's own quote, and claims nothing about the contract it mirrors.
- Snapshot ageing, the scan over obligations and the choice between pairs (keeper/src/strategy/liquidator.rs lines 388-725): they call the modelled pieces and would add only bookkeeping.
- The retry with a wider margin after a dust refusal: it is the same planning with `RETRY_MARGIN`, and the sizing theorems hold for every margin.
- Reading borrows and pools off the chain: as for deposits, a map keyed by pool; the model finds the first borrow of a pool, as the source does.
- Batch request building: it copies fields of a plan into requests.
- `10_i128.pow(decimals)` panics on overflow in the planner, the repay cap and the value helpers; the model reports an error there instead.
- Overflow of the unchecked `sum` over reservations: the committed sum is unbounded in the model, and within the wallet by `NoDoubleSpend`.
- Balance staleness: `NoDoubleSpend` bounds reservations by the balance each reserve was shown; that a cached balance may lag a settled transaction is not modelled.
- Write failures of the obligation store: every put and delete succeeds in the model; the source logs a failure and goes on.
- Uniqueness of random ids: a hypothesis of the lifecycle results (`Possible`) and of `GrantsStayWithinWallet` (`FreshIds`); `NoDoubleSpend` does without it.
- Backoff sleeps, error-string classification and the confirmation's failure kinds: they do not affect which path releases a reservation.
- `has_acceptable_liquidation` and the eligibility test are recursive functions: their source loops only return early and update nothing.
- The balancer's candidate selection, value threshold and asset index, and building the withdrawal operation: easy members.
