# learn-invest-now: a verified model of its client-side logic

learn-invest-now is a React teaching app about investing. Most of it is
presentation. The logic worth a model sits in six places, and each one is a
Dafny module here:

- `Simulator` (simulator.dfy): the paper-trading ledger of the simulator
  page. It is a class holding a cash balance and an ordered list of holdings
  with at most one holding per symbol. `Trade` buys or sells at a given price:
  - a buy may merge into an existing holding at the weighted-average cost, or
    it appends a new holding;
  - a sell lowers the quantity of a holding and removes the holding at zero.
  
  The new holdings lists and the page totals (sums over the list) are pure
  functions.
- `PortfolioSummary` (portfolio_summary.dfy): the portfolio value, the
  overall P&L percentage, the trend indicator and the holdings panel.
- `SimulatorForm` (simulator_form.dfy): the trade form. It holds the cost
  preview, the ordered validation cascade, and the request and endpoint a
  valid trade produces. A small class holds the form fields, which are
  cleared only after an accepted trade.
- `Quiz` (quiz.dfy): the quiz page as a state machine (index, score,
  answers, completed). It also holds the three-tier rating and the progress
  bar.
- `QuizCard` (quiz_card.dfy): one question card. A submit is taken at most
  once between resets, and the correctness is looked up by option id.
- `Lessons` (lessons.dfy): the catalogue filter (case-insensitive search and
  level) and the progress counts.
- `Wrappers` (wrappers.dfy): the `Option` type.

Money is exact (`real`), so the model makes no claim about floating-point
rounding. A percentage whose divisor is zero is `NotFinite`, which stands for
the Infinity or NaN the page would compute.

The ledger has no quantity check of its own, and its first step returns
silently on an unknown symbol (src/pages/Simulator.tsx:46-47). `Trade` yields
`UnknownSymbol` and changes nothing; it requires a positive quantity (see
Left out). The quantity check belongs to the form, and
`SimulatorForm.Validate` models it there.

## Model

| member | source | states |
|---|---|---|
| Simulator.PnlPercent | src/pages/Simulator.tsx:121 | the P&L percentage is not finite exactly when the average price is 0; otherwise percentage times average equals (quote − average) × 100 |
| Simulator.FindFirst | src/pages/Simulator.tsx:45-46 | the first-match lookup behind both `FindStock` (quotes) and `FindHolding` (holdings, line 99): none exactly when no element has the symbol; otherwise an element with the symbol that no earlier element shares |
| Simulator.Ledger.constructor | src/pages/Simulator.tsx:29-31 | a fresh ledger holds 10000 in cash and no holdings, and is valid |
| Simulator.Ledger.Trade | src/pages/Simulator.tsx:45-136 | unknown symbol, a buy costing more than the balance, or a sell without enough shares is rejected and changes nothing; a buy lowers the balance by price × quantity and a sell raises it by that amount; the holdings become the buy or sell list; unique symbols and consistent holdings are kept; a non-negative balance stays non-negative at non-negative prices |
| Simulator.FindHoldingAt | src/pages/Simulator.tsx:63 | with unique symbols, looking up a held symbol returns that very holding |
| Simulator.BuyOpensHolding | src/pages/Simulator.tsx:84-94 | buying a symbol not held appends exactly one holding: quantity q, average = trade price, current price = catalogue price, consistent derived fields; the earlier list is unchanged |
| Simulator.MergedWeightedAverage | src/pages/Simulator.tsx:65-69 | the merged quantity is the sum, and merged average × merged quantity is the old cost plus price × q; the average lies between the old average and the trade price; the merged holding is consistent |
| Simulator.BuyMergesHolding | src/pages/Simulator.tsx:62-83 | buying a held symbol replaces only that entry, in place: quantity old + q, weighted-average price, catalogue price; the other entries and the order are unchanged |
| Simulator.BuyKeepsValid | src/pages/Simulator.tsx:62-96 | a buy keeps symbols unique, quantities positive and every holding's value and P&L consistent with its prices |
| Simulator.BuyCostBasis | src/pages/Simulator.tsx:60-96 | a buy raises the cost basis of the holdings by exactly the cash it spends |
| Simulator.BuyKeepsOthers | src/pages/Simulator.tsx:62-96 | a buy grows the list by one exactly when the symbol was not held; holdings of other symbols keep their place; every entry is the symbol's or an earlier one; quantities stay positive; the symbol is held afterwards |
| Simulator.SellReducesHolding | src/pages/Simulator.tsx:112-133 | a partial sell lowers only that holding's quantity by q; its average is unchanged, its current price is the catalogue price, it stays consistent, and the rest of the list and its order are unchanged |
| Simulator.SellRemovesHolding | src/pages/Simulator.tsx:115-133 | selling every share removes exactly that holding, and the others keep their order |
| Simulator.SellKeepsValid | src/pages/Simulator.tsx:112-134 | a sell of at most the held quantity keeps symbols unique, quantities positive and holdings consistent |
| Simulator.SellCostBasis | src/pages/Simulator.tsx:109-134 | a sell lowers the cost basis by average price × q, not by what it receives: realised gains are not tracked |
| Simulator.SomesMembers | src/pages/Simulator.tsx:133 | dropping the emptied entries keeps exactly the holdings that were present |
| Simulator.SellKeepsOthers | src/pages/Simulator.tsx:112-133 | a sell never lengthens the list, and a holding of another symbol is in the list after the sell exactly when it was before |
| Simulator.SumAppend | src/pages/Simulator.tsx:138-139 | a page total over a list with one more holding grows by that holding's field |
| Simulator.SumUpdate | src/pages/Simulator.tsx:138-139 | replacing one holding changes a page total by the difference of the two fields |
| Simulator.SumRemove | src/pages/Simulator.tsx:138-139 | removing one holding lowers a page total by its field |
| Simulator.ConsistentTotals | src/pages/Simulator.tsx:138-139 | on consistent holdings the total value is the sum of current price × quantity, and the total P&L is that sum minus the sum of average price × quantity |
| Simulator.TotalValue | src/pages/Simulator.tsx:138 | on consistent holdings the value total is the sum of current price × quantity |
| Simulator.TotalPnL | src/pages/Simulator.tsx:139 | on consistent holdings the P&L total is current price × quantity minus the cost basis, summed |
| Simulator.CostBasisPositive | src/pages/Simulator.tsx:138-139 | with positive average prices, a non-empty consistent list has a positive cost basis |
| PortfolioSummary.OverallPnLPercent | src/components/PortfolioSummary.tsx:25 | 0 when the holdings value is not positive; not finite exactly when the P&L equals a positive holdings value; otherwise percentage × (value − P&L) = P&L × 100 |
| PortfolioSummary.BuyAtQuoteKeepsPortfolioValue | src/components/PortfolioSummary.tsx:24 | the portfolio value (cash plus holdings value) is unchanged by a buy at the quoted price, when a held position of the symbol is already valued at that quote |
| PortfolioSummary.MergedMarketValue | src/pages/Simulator.tsx:65-79 | merging q shares at the quote into a holding valued at that quote raises its market value by quote × q |
| PortfolioSummary.SellAtQuoteKeepsPortfolioValue | src/components/PortfolioSummary.tsx:24 | the portfolio value is unchanged by a sell at the quote of the holding, whether it lowers or removes it |
| PortfolioSummary.SoldMarketValue | src/pages/Simulator.tsx:112-138 | a sell of q shares at the holding's quote lowers the holdings value by quote × q |
| PortfolioSummary.SoldOutMarketValue | src/pages/Simulator.tsx:115-138 | selling every share of a holding lowers the holdings value by that holding's quote × quantity |
| PortfolioSummary.SoldDownMarketValue | src/pages/Simulator.tsx:115-138 | a partial sell at the holding's quote lowers the holdings value by quote × q |
| PortfolioSummary.ReducedMarketValue | src/pages/Simulator.tsx:115-128 | a partial sell keeps the holding, and its market value drops by quote × q |
| PortfolioSummary.TrendOfLedger | src/components/PortfolioSummary.tsx:56-66 | over a valid ledger the trend is up exactly when the holdings value is at least the cost basis |
| PortfolioSummary.OverallPercentOfLedger | src/components/PortfolioSummary.tsx:25-71 | over a valid ledger with positive averages and positive value, the percentage is finite, it is the P&L in percent of the cost basis, and its sign agrees with the trend icon |
| PortfolioSummary.HoldingsPanel | src/components/PortfolioSummary.tsx:86-96 | the empty state is shown exactly for no holdings; otherwise one row per holding, in order, keyed by its symbol |
| PortfolioSummary.RowKeysDistinct | src/components/PortfolioSummary.tsx:93-95 | a valid ledger gives every row a distinct key |
| SimulatorForm.TotalCost | src/components/SimulatorForm.tsx:29-30 | the preview is price × quantity for a quoted symbol and 0 for an unknown symbol or an empty field |
| SimulatorForm.AffordabilityDecides | src/components/SimulatorForm.tsx:31-58 | for a quoted symbol and a positive quantity, a buy is sent exactly when the balance covers its cost, and a sell is always sent |
| SimulatorForm.Validate | src/components/SimulatorForm.tsx:36-58 | Invalid Trade exactly when the selection or quantity is empty or the symbol is unknown; Invalid Quantity exactly when that passes and the quantity is ≤ 0; Insufficient Funds exactly when both pass and a buy costs more than the balance; otherwise the request {user 1, ticker, quantity} goes to /buy or /sell |
| SimulatorForm.ButtonAgreesWithChecks | src/components/SimulatorForm.tsx:170 | a disabled button never lets a request through; an enabled one rules out the funds rejection, and the first check then fails only for an unknown symbol |
| SimulatorForm.EnabledButtonZeroQuantity | src/components/SimulatorForm.tsx:170 | the button does not mirror the quantity check: a zero-share buy leaves it enabled and is rejected as Invalid Quantity |
| SimulatorForm.FailureDescription | src/components/SimulatorForm.tsx:86 | the backend's message when it sent a non-empty one, else a generic text that is never empty |
| SimulatorForm.TradeForm.constructor | src/components/SimulatorForm.tsx:24-26 | the form starts with no stock, an empty quantity and a buy |
| SimulatorForm.TradeForm.Submit | src/components/SimulatorForm.tsx:34-91 | a rejected trade shows its rejection; a sent trade shows executed, failed with a description, or connection error; the refresh runs and the stock and quantity are cleared exactly when a sent trade is accepted; otherwise the fields are kept |
| Quiz.CountCorrect | src/pages/Quiz.tsx:76-81 | the number of correct answers never exceeds the number of answers |
| Quiz.Rate | src/pages/Quiz.tsx:97-109 | excellent exactly when score × 100 ≥ 80 × N, good exactly when 60 × N ≤ score × 100 < 80 × N, keep studying exactly below 60 × N |
| Quiz.CountCorrectAppend | src/pages/Quiz.tsx:76-81 | appending an answer adds 1 to the correct count exactly when the answer is correct |
| Quiz.ScoreWithinProgress | src/pages/Quiz.tsx:75-88 | in a consistent state, the score is at most the index while running and at most N; a completed quiz has N answers |
| Quiz.QuizSession.constructor | src/pages/Quiz.tsx:9-12 | a fresh quiz is at index 0, score 0, no answers, not completed |
| Quiz.QuizSession.Answer | src/pages/Quiz.tsx:75-88 | the answer is appended; the score grows by 1 exactly when it is correct; before the last question the index advances, on the last the quiz completes at index N − 1; the score keeps counting the correct answers |
| Quiz.QuizSession.Reset | src/pages/Quiz.tsx:90-95 | reset returns to the initial state |
| Quiz.RateMonotone | src/pages/Quiz.tsx:97-109 | a higher score never gets a lower tier |
| Quiz.FiveQuestionTiers | src/pages/Quiz.tsx:97-109 | with five questions, 4 or 5 right is excellent, 3 is good, fewer is keep studying |
| Quiz.ScoreColor | src/pages/Quiz.tsx:97-102 | success, warning or destructive, each exactly on its integer threshold band |
| Quiz.ScoreMessage | src/pages/Quiz.tsx:104-109 | one message per tier, each exactly on its band; a perfect score gets the excellent message |
| Quiz.Progress | src/pages/Quiz.tsx:73 | the progress lies in (0, 100] and is 100 on the last question |
| QuizCard.IsCorrect | src/components/QuizCard.tsx:29-30 | true exactly when the first option with the selected id is flagged correct; false when no option has the id |
| QuizCard.CorrectnessByOption | src/components/QuizCard.tsx:29-30 | with distinct option ids, the answer is correct exactly when the picked option is flagged correct, and an unknown id is wrong |
| QuizCard.Card.constructor | src/components/QuizCard.tsx:22-24 | a fresh card has no selection, is not submitted and shows no feedback |
| QuizCard.Card.Select | src/components/QuizCard.tsx:61-64 | picking an option sets the selection unless the card is submitted, when it is ignored |
| QuizCard.Card.Submit | src/components/QuizCard.tsx:26-39 | a submit with no selection or after a submit changes nothing and reports nothing; otherwise it marks the card submitted, shows feedback with the correctness and the explanation, and reports the correctness once; at most one report between resets |
| QuizCard.Card.Reset | src/components/QuizCard.tsx:41-45 | reset clears the selection, the submitted flag and the feedback |
| Lessons.Includes | src/pages/Lessons.tsx:104-105 | true exactly when the term occurs somewhere in the text |
| Lessons.OccursShift | src/pages/Lessons.tsx:104-105 | an occurrence in the text after its first character is an occurrence one place later in the whole text, and back |
| Lessons.FilterLessons | src/pages/Lessons.tsx:103-108 | a lesson is shown exactly when it is in the catalogue, its lower-cased title or description contains the lower-cased term, and the level is All or its own |
| Lessons.FilterIsSubsequence | src/pages/Lessons.tsx:103-108 | the shown lessons are a subsequence of the catalogue: nothing added, repeated or reordered |
| Lessons.FilterKeepsCopies | src/pages/Lessons.tsx:103-108 | a shown lesson keeps every copy it has in the catalogue, and a hidden one keeps none |
| Lessons.ToLowerIdempotent | src/pages/Lessons.tsx:104-105 | lower-casing twice is lower-casing once |
| Lessons.SearchIgnoresCase | src/pages/Lessons.tsx:104-105 | the search gives the same answer for a term and its lower-cased form |
| Lessons.TitleMatches | src/pages/Lessons.tsx:104-105 | a term that occurs in the title as written matches the search |
| Lessons.IncludesEmpty | src/pages/Lessons.tsx:104-105 | every text contains the empty term |
| Lessons.EmptySearchShowsAll | src/pages/Lessons.tsx:103-108 | an empty search with All shows the whole catalogue, in order |
| Lessons.OnlySelectedLevel | src/pages/Lessons.tsx:106 | with one level selected, every lesson shown has that level |
| Lessons.SingleMatch | src/pages/Lessons.tsx:103-108 | when exactly one lesson matches the search, with All it alone is shown |
| Lessons.NoneShown | src/pages/Lessons.tsx:103-108 | when no lesson matches the search, nothing is shown |
| Lessons.CompletedInProgressDisjoint | src/pages/Lessons.tsx:113-114 | completed, in-progress and idle lessons add up to the whole catalogue, so no lesson is both completed and in progress |
| Lessons.Count | src/pages/Lessons.tsx:113-115 | a count never exceeds the number of lessons |
| Lessons.GetProgressStats | src/pages/Lessons.tsx:112-118 | the total is the number of lessons, and the completed plus in-progress count and the not-started count each stay within it |
| Lessons.StatsBalance | src/pages/Lessons.tsx:112-118 | the three counts plus the open lessons below 0 equal the total plus the completed lessons at progress 0 |
| Lessons.CountZero | src/pages/Lessons.tsx:113-115 | a count is 0 exactly when no lesson is in the group |
| Lessons.StatsAddUp | src/pages/Lessons.tsx:112-118 | with no negative progress, the three counts add up to the total exactly when no completed lesson is at progress 0 |

## Left out

- The HTTP exchange of the trade form: the `fetch`, the JSON body and its parsing, the toasts and the console logging. The backend's answer is a parameter (`Response`). A response body that fails to parse ends in the connection-error branch, so it is folded into `ConnectionError`.
- Floating point and display formatting (`toFixed`, `Math.round`): money and percentages are exact reals. Infinity and NaN are collapsed into `NotFinite`.
- `parseInt` on the quantity text: the field is an already-parsed `Option<int>`, where `None` is the empty field. A text that parses to NaN would pass the quantity check of the form, but it is not modelled.
- Simulator.Ledger.Trade: requires a positive quantity. No call site passes a quantity: the form calls `onTrade()` with no arguments (src/components/SimulatorForm.tsx:79), after its own checks have already rejected a quantity ≤ 0 (:41). With 0 or a negative quantity the code can write a zero-quantity holding or divide 0 by 0 for the average, and the model has no NaN.
- React mechanics: state batching and stale closures (the sell check reads the rendered `holdings` while the update maps over `prev`; the quiz reads the rendered `score`). Each handler is one atomic step over the current state.
- The quiz card is rendered without a `key`, so its state persists across questions. The card and the quiz are modelled as separate machines.
- Quiz.QuizSession.Answer: requires the quiz not to be completed, because the card that calls it is not rendered then. The constructor requires at least one question, because the rating divides by the count.
- The wiring between the simulator page and the form: the page passes a four-argument trade handler, and the form calls a no-argument refresh. Each side is modelled against its own code. `refreshed` only records that the refresh callback ran.
- Lower-casing covers the letters A to Z only. Other Unicode case mappings are not modelled.
- The mock catalogues (stock quotes, questions, lessons) are parameters. The one exception is a short worked session in `Simulator.Session`.
- Setting the form fields (stock, quantity, action) by the inputs is plain assignment, with no rule to model.
- The routing and the landing page, the user profile form, the dashboard's mock data and its `earned` filter, the badge and lesson cards: these are presentation only.
