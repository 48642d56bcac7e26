# Quote/fill reconciliation for cross-chain intents

This project models the reconciliation engine of the intent-slippage tracker in
Dafny. The engine lives in `lib/sodax/parser.ts` and `lib/sodax/pairing.ts`:

- **The parser.** An indexing service reports log lines such as
  `CreateIntent 73.541165 USDC(arbitrum) -> 5.061095891887000125 AVAX(avax)`.
  `parseActionDetail` turns each line into a quote, a fill or an unknown
  message, and reads both amounts as exact decimals.
- **The pairing service.** `PairingService` deduplicates messages by id. It
  files each quote or fill under a match key made of the from-amount, the
  from-token and from-chain, and the destination token and chain. It attaches
  the leg to the first intent under that key that still lacks a leg of that
  kind, or opens a new intent. Then it recomputes the intent's status (pending,
  filled or orphan fill) and its slippage: the delivered amount minus the
  quoted one, and that difference as a percentage of the quote.
- **The read side.** `getIntents` lists the intents, latest activity first.
  `getStats` reports count, mean, maximum and minimum of the slippage
  percentages of the filled intents.

The Dafny modules:

- `Decimals`: the amount text accepted by the decimal constructor and its exact value (`real`).
- `ActionGrammar`: the regex of parser.ts:19, written as a greedy left-to-right scanner over a pattern of pieces. It is proved sound. It is also proved complete and unique for patterns in which no run can swallow the start of the next piece, which holds for the action pattern.
- `Parser`: `parseActionDetail`.
- `Sorting`: the stable sort both `processMessages` and `getIntents` use, proved to be a sorted permutation that keeps elements with equal keys in input order.
- `Intents`: the records, the status and slippage recomputation, and the match key.
- `Correlation`: the state of the service as a value (`Index`), one message as `Ingest` and a batch as `ProcessBatch`. It also holds the service invariant and the properties of ingestion.
- `Reports`: `getIntents` and `getStats` as functions of the state.
- `Service`: the class `PairingService`, whose fields are updated in place by methods. Each method is proved to do what the `Correlation` and `Intents` functions say.
- `Scenarios`: concrete runs. A quote to 10 AVAX filled with 9.5 AVAX, delivered fill first, gives one intent with slippage -0.5 and -5 %. 18-digit amounts are read without rounding, and a from-amount spelled "100.0" pairs with one spelled "100".

How the model represents the source:
- Amounts are exact rationals.
- A malformed amount such as `1..2` or `.`, which `new Decimal` rejects by throwing (parser.ts:33 and :36), is the parse error `Err(InvalidDecimal(text))`. As in the source, the message's id is already marked processed (pairing.ts:42) and the batch stops at that message.
- An intent is named after the message that created it.
- A JavaScript `Map`'s insertion order is kept as the sequence `order`.

## Model

| member | source | states |
|---|---|---|
| Decimals.ParseDecimalAccepts | lib/sodax/parser.ts:33 | the decimal constructor accepts a `[\d.]+` capture exactly when it has at most one dot and at least one digit |
| Decimals.ParseDecimal | lib/sodax/parser.ts:33-36 | `new Decimal` on a `[\d.]+` capture: a non-empty run of digits is always accepted and denotes the integer it spells; only the empty text or a text with a dot can be refused; an accepted amount is never negative |
| Decimals.ParseDecimalPoint | lib/sodax/parser.ts:33 | an amount `int.frac` denotes the integer its digits spell, divided by ten to the number of fractional digits, with nothing rounded |
| Decimals.ParseDecimalInteger | lib/sodax/parser.ts:36 | an amount without a dot denotes the integer its digits spell |
| Decimals.DigitsAppend | lib/sodax/parser.ts:33 | digits written after others shift the value of the left part by the length of the right part |
| Decimals.RenderDecimalRoundTrip | lib/sodax/parser.ts:15-17 | an amount written with any number of fractional digits, such as the 18 of the example lines, parses back to exactly its value |
| ActionGrammar.Longest | lib/sodax/parser.ts:19 | a greedy `class+` run takes a prefix in the class and stops at a character outside it |
| ActionGrammar.FirstWord | lib/sodax/parser.ts:19 | the alternation takes a listed word that starts the text |
| ActionGrammar.Step | lib/sodax/parser.ts:19 | a matched piece captures text fitting the piece, and capture plus remainder rebuild the text |
| ActionGrammar.MatchFrom | lib/sodax/parser.ts:19-20 | a match yields captures that each fit their piece and, concatenated, are a prefix of the text |
| ActionGrammar.LongestComplete | lib/sodax/parser.ts:19 | a run followed by a character outside its class is exactly what the greedy scan takes |
| ActionGrammar.FirstWordComplete | lib/sodax/parser.ts:19 | for prefix-free words, the alternation finds the word a text starts with |
| ActionGrammar.MatchComplete | lib/sodax/parser.ts:19-20 | for a deterministic pattern, every decomposition of a text into fitting captures plus a remainder is the one the scanner finds, whatever follows the match |
| ActionGrammar.MatchUnique | lib/sodax/parser.ts:19 | a deterministic pattern decomposes a text in at most one way, so backtracking cannot find other captures |
| ActionGrammar.ActionPatternDeterministic | lib/sodax/parser.ts:19 | the action words are prefix-free and each run is followed by a piece that cannot start inside it (`[\d.]` then `\s`, `\w` then `(`, `[\w.]` then `)`) |
| ActionGrammar.ScanCharacterised | lib/sodax/parser.ts:19-22 | the scanner finds a match exactly when the text is an action line, and then finds its captures |
| Parser.ParseActionDetail | lib/sodax/parser.ts:14-41 | the record keeps the raw text; an unknown message has no other field; a quote or fill has all six fields, with non-empty tokens and chains |
| Parser.Classify | lib/sodax/parser.ts:28-32 | the type is quote exactly for `IntentSwap` or `CreateIntent`, fill exactly for `IntentFilled`, and unknown for any other word |
| Parser.UnknownIffNotActionLine | lib/sodax/parser.ts:19-32 | a text is `unknown` (raw text only) exactly when it is not an action line; an action line is never `unknown` |
| Parser.ParseActionLine | lib/sodax/parser.ts:19-40 | an action line followed by any text parses to its captures: `IntentSwap`/`CreateIntent` give a quote, `IntentFilled` a fill, amounts are the exact values of their text, and a malformed amount raises an error naming it |
| Parser.ClassifyAction | lib/sodax/parser.ts:28-32 | of the three action words, `IntentFilled` is a fill and the other two are quotes |
| Parser.ParseWellFormedLine | lib/sodax/parser.ts:26-40 | a whole action line whose amounts are well formed parses to the record of its captures and amount values |
| Sorting.Insert | lib/sodax/pairing.ts:26 | inserting keeps the elements (multiset) and keeps a sorted list sorted |
| Sorting.SortBy | lib/sodax/pairing.ts:131-136 | the result is a permutation of the input, sorted by the key |
| Sorting.SortedUnique | lib/sodax/pairing.ts:26 | when the key identifies elements, two sorted permutations of one collection are equal |
| Sorting.InsertStable | lib/sodax/pairing.ts:26 | an inserted element goes before every element with its key, and the order among the others is kept |
| Sorting.SortByStable | lib/sodax/pairing.ts:131-136 | the sort is stable: for every key, the elements with that key appear in their input order |
| Intents.SlippageOf | lib/sodax/pairing.ts:107-120 | fill amount = quote amount + abs; pct = 0 for a zero quote, otherwise pct × quote = abs × 100 |
| Intents.Percent | lib/sodax/pairing.ts:115 | `part / whole × 100` is the value r with r × whole = part × 100 |
| Intents.Recomputed | lib/sodax/pairing.ts:102-127 | only status and slippage change: both legs give filled, only the fill gives orphan fill, only the quote gives pending, no leg leaves the intent as it was; the slippage changes only when both legs are there with a to-amount, and then becomes SlippageOf of the two |
| Intents.RecomputedConsistent | lib/sodax/pairing.ts:102-127 | after the update, the status names the legs present (filled iff both, orphan fill iff only the fill, pending iff only the quote), slippage is present iff filled and equals SlippageOf of the two delivered amounts; legs and id unchanged |
| Intents.LookupKey | lib/sodax/pairing.ts:33-36 | a complete message always has a key, and a key carries the message's from-amount by value |
| Intents.SameKeyIffSameRoute | lib/sodax/pairing.ts:33-36 | two complete messages share a key iff they agree on from-amount, from token and chain, and to token and chain; the to-amount plays no part |
| Intents.WrittenLookupKey | lib/sodax/pairing.ts:33-36 | the `_`-joined key exists exactly when the field-by-field key does, and carries the same from-amount |
| Intents.WrittenKeyCoarser | lib/sodax/pairing.ts:33-36 | messages with one field-by-field key get one `_`-joined key, so the joined key only merges routes, never splits one |
| Intents.WrittenKeyCollision | lib/sodax/pairing.ts:35 | the `_`-joined key as written is equal for token "A_B" on chain "c" and token "A" on chain "B_c", while their routes differ |
| Correlation.FirstOpen | lib/sodax/pairing.ts:54-69 | the scan returns the first candidate, in list order, that is stored and lacks a leg of the kind; none before it qualifies |
| Correlation.StepOf | lib/sodax/pairing.ts:50-84 | the leg goes to an intent that is stored and filed under the key, or to a new intent named after the message |
| Correlation.Place | lib/sodax/pairing.ts:50-99 | placing a leg leaves the processed ids alone, adds at most the message's intent to the map and to the end of the order, only extends the list of its own key, and leaves the list of every other key as it was |
| Correlation.Ingest | lib/sodax/pairing.ts:38-100 | a processed id changes nothing; otherwise the id is marked; the call raises exactly for a new message whose amount is malformed, and then only marks the id; the order gains at most the message's intent |
| Correlation.EmptyInv | lib/sodax/pairing.ts:17-22 | the new, empty service satisfies the invariant |
| Correlation.MarkPreservesInv | lib/sodax/pairing.ts:42 | recording an id as processed keeps the invariant |
| Correlation.AttachConsistent | lib/sodax/pairing.ts:93-127 | putting the missing leg into a consistent intent and recomputing gives a consistent filled intent with the same id |
| Correlation.AttachPreservesInv | lib/sodax/pairing.ts:56-99 | attaching a leg to the first open candidate keeps the invariant |
| Correlation.CreatePreservesInv | lib/sodax/pairing.ts:71-99 | creating, filing and filling a new intent keeps the invariant |
| Correlation.NewIntentInv | lib/sodax/pairing.ts:71-84 | storing a new consistent intent named after a processed message, appending it to the order and to the list of its own key, keeps the invariant |
| Correlation.IngestPreservesInv | lib/sodax/pairing.ts:38-100 | processing any message keeps the invariant: order lists the intents once each; each intent carries its own id, came from a processed message, is consistent and is filed under its key; each filed id names an intent with that key |
| Correlation.IngestDuplicate | lib/sodax/pairing.ts:39-41 | a message whose id was processed changes nothing |
| Correlation.IngestIdempotent | lib/sodax/pairing.ts:39-42 | processing a message marks its id, so processing it again at once changes nothing |
| Correlation.IngestUnparsed | lib/sodax/pairing.ts:42-45 | a message that is unknown or has a malformed amount only marks its id; it raises exactly when the amount is malformed |
| Correlation.IngestGrowth | lib/sodax/pairing.ts:38-100 | processing adds the id to the processed set, adds at most one intent at the end of the order, never removes an intent, never overwrites a leg or a filled intent, and only extends candidate lists |
| Correlation.PlaceGrowth | lib/sodax/pairing.ts:50-99 | placing a leg changes intents, order and lookup only by additions and by completing an intent |
| Correlation.PlaceCreates | lib/sodax/pairing.ts:71-84 | when the scan finds no open candidate, no intent under the key lacks this leg, and exactly one new intent is created: named after the message, appended to the order and to the key's candidates, holding just this leg, pending for a quote and orphan fill for a fill, everything else unchanged |
| Correlation.PlaceCompletes | lib/sodax/pairing.ts:56-99 | when the scan finds candidate j, the leg fills the slot of the first open candidate, which becomes filled; order, lookup and every other intent are unchanged |
| Correlation.IngestParsed | lib/sodax/pairing.ts:38-99 | a new quote or fill always has a key, marks its id and is placed under that key without raising |
| Correlation.IngestPlacement | lib/sodax/pairing.ts:50-99 | a new quote or fill creates an intent exactly when no intent under its key lacks this leg, and otherwise completes the earliest filed one |
| Correlation.OppositeLegsPair | lib/sodax/pairing.ts:56-120 | a quote and a fill with the same key under which nothing was filed make one intent, whichever arrives first (so an orphan fill is completed by a later quote), filled with both legs and the slippage of fill against quote; the intent count grows by one |
| Correlation.PairOnFreshKey | lib/sodax/pairing.ts:56-120 | the same two-message pairing, stated for a key with no candidates |
| Correlation.PlacePair | lib/sodax/pairing.ts:71-99 | the first leg under an unused key creates an intent and the opposite second leg completes it |
| Correlation.TwoLegs | lib/sodax/pairing.ts:93-120 | a quote and a fill attached one after the other, in either order, give a filled intent with the slippage of fill against quote |
| Correlation.NothingFiled | lib/sodax/pairing.ts:52 | with no stored intent having the key, the candidate list of the key is empty |
| Correlation.FiledApart | lib/sodax/pairing.ts:52-83 | under the invariant, the lists of two different keys share no id and name stored intents only |
| Correlation.FirstOpenFrame | lib/sodax/pairing.ts:56-69 | the scan for an open slot reads only the intents of the candidates it walks |
| Correlation.StepFrame | lib/sodax/pairing.ts:50-84 | where a leg goes depends only on the list of its key and on the intents filed there |
| Correlation.ApplyCommutes | lib/sodax/pairing.ts:71-99 | writes to two different intents under two different keys give the same map and lists in either order; only the order of new intents may differ |
| Correlation.PlaceCommutes | lib/sodax/pairing.ts:50-99 | under the invariant, two legs of different messages placed under different keys land in the same intents whichever is placed first |
| Correlation.IngestCommutes | lib/sodax/pairing.ts:38-100 | under the invariant, two messages with different ids give the same intents, lookup lists and processed ids in either order, unless both are quotes or fills with one key; only the insertion order of new intents may differ |
| Correlation.IngestAll | lib/sodax/pairing.ts:28-30 | the loop forgets no processed id, extends the order by at most one intent per message, and raises only when some message of the batch has a malformed amount |
| Correlation.ProcessBatch | lib/sodax/pairing.ts:24-31 | the same for `processMessages`: no processed id is lost, at most one new intent per message, and a throw only for a malformed amount in the batch |
| Correlation.IngestAllPreservesInv | lib/sodax/pairing.ts:28-30 | the message loop keeps the invariant |
| Correlation.IngestAllMarks | lib/sodax/pairing.ts:28-42 | the loop forgets no processed id and, when it runs to the end, has processed every message of the batch |
| Correlation.AllSeenNoOp | lib/sodax/pairing.ts:28-41 | a batch whose ids were all processed changes nothing |
| Correlation.BatchPreservesInv | lib/sodax/pairing.ts:24-31 | `processMessages` keeps the invariant |
| Correlation.BatchIdempotent | lib/sodax/pairing.ts:24-42 | delivering a batch again, after it went through, changes nothing |
| Correlation.BatchOrderIndependent | lib/sodax/pairing.ts:24-26 | with distinct ids, the delivery order of a batch does not change the result, because the batch is processed in ascending id order |
| Reports.Stored | lib/sodax/pairing.ts:130 | the values of the map in insertion order; each is the intent stored under its own id |
| Reports.ListIntents | lib/sodax/pairing.ts:129-137 | `getIntents` is a permutation of the stored intents, sorted by latest activity (fill time, else quote time, else 0), newest first |
| Reports.StoredOnce | lib/sodax/pairing.ts:130 | each stored intent occurs once among the map's values |
| Reports.ListsEachOnce | lib/sodax/pairing.ts:129-137 | under the invariant, every stored intent is listed exactly once |
| Reports.ListsOnlyStored | lib/sodax/pairing.ts:129-137 | under the invariant, every listed intent is the one stored under its id |
| Reports.ListsAll | lib/sodax/pairing.ts:129-137 | under the invariant, the list is as long as the number of stored intents |
| Reports.FilledPcts | lib/sodax/pairing.ts:140-143 | one percentage per list position holding a filled intent with a slippage, and each value as many times as positions carry it; none exactly when no such intent exists |
| Reports.PctsOfDistinct | lib/sodax/pairing.ts:140-143 | in a list without repeats, there are as many percentages as distinct filled intents with a slippage |
| Reports.ListedOnce | lib/sodax/pairing.ts:129-137 | under the invariant, `getIntents` never lists an intent twice |
| Reports.StoredReportedCard | lib/sodax/pairing.ts:130-140 | walking the distinct ids of the map, the filled intents with a slippage are as many as their ids |
| Reports.MaxOf | lib/sodax/pairing.ts:144 | the maximum is one of the percentages and bounds all of them |
| Reports.MinOf | lib/sodax/pairing.ts:145 | the minimum is one of the percentages and is below all of them |
| Reports.SumBetween | lib/sodax/pairing.ts:148 | n values between lo and hi sum to between n·lo and n·hi |
| Reports.MeanBetween | lib/sodax/pairing.ts:149 | a sum between n·lo and n·hi, divided by n, lies between lo and hi |
| Reports.Summary | lib/sodax/pairing.ts:141-156 | count is the number of percentages, max and min are among them and bound them, min ≤ avg ≤ max, and avg × count = sum, so avg is their mean |
| Reports.StatsOf | lib/sodax/pairing.ts:139-157 | `getStats` is null exactly when no intent is filled with a slippage, otherwise the summary of their percentages |
| Reports.ServiceStats | lib/sodax/pairing.ts:139-157 | `getStats` on the state is null exactly when no listed intent is filled with a slippage; otherwise its count is positive and min ≤ avg ≤ max |
| Reports.StatsNullIff | lib/sodax/pairing.ts:139-143 | under the invariant, `getStats` is null exactly when no stored intent is filled with a slippage |
| Reports.StatsCountsReported | lib/sodax/pairing.ts:139-152 | under the invariant, the count `getStats` reports is the number of stored intents filled with a slippage |
| Service.PairingService.constructor | lib/sodax/pairing.ts:17-22 | a new service has empty maps and set, and satisfies the invariant |
| Service.PairingService.ProcessMessages | lib/sodax/pairing.ts:24-31 | the loop leaves the state `ProcessBatch` gives, and reports whether a message threw; the invariant is kept |
| Service.PairingService.BatchInv | lib/sodax/pairing.ts:24-31 | the state after a batch satisfies the invariant when the state before did |
| Service.PairingService.ProcessMessage | lib/sodax/pairing.ts:38-100 | the new state, and whether the message threw, are those `Ingest` gives |
| Service.PairingService.PlaceLeg | lib/sodax/pairing.ts:50-99 | the new state is `Place` of the old one |
| Service.PairingService.FindCandidate | lib/sodax/pairing.ts:50-69 | the loop returns nothing exactly when no candidate is open, else the first open candidate |
| Service.PairingService.FileNew | lib/sodax/pairing.ts:71-84 | the new intent is stored, appended to the order and to the end of the key's candidate list |
| Service.PairingService.AttachLeg | lib/sodax/pairing.ts:86-99 | the leg is put in its slot and the intent recomputed; nothing else changes |
| Service.PairingService.UpdateStatusAndSlippage | lib/sodax/pairing.ts:102-127 | the intent is replaced by its recomputation; nothing else changes |
| Service.PairingService.GetIntents | lib/sodax/pairing.ts:129-137 | a permutation of the stored intents, newest activity first: every stored intent exactly once, only stored intents, as many as are stored |
| Service.PairingService.GetStats | lib/sodax/pairing.ts:139-157 | null exactly when no stored intent is filled with a slippage; otherwise the count is the number of those intents and min ≤ avg ≤ max |
| Scenarios.ParseRouteLine | lib/sodax/parser.ts:19-40 | a quote or fill line for USDC(arbitrum) -> AVAX(avax) with well-formed amounts parses to its route and amount values |
| Scenarios.HundredPointZero | lib/sodax/parser.ts:33 | "100.0" denotes the same amount as "100" |
| Scenarios.PairedRun | lib/sodax/pairing.ts:24-120 | a fill (id 2) delivered before its quote (id 1) is processed after it; the two make one filled intent with slippage -0.5 and -5 % |
| Scenarios.EndToEnd | lib/sodax/pairing.ts:24-120 | the same on the concrete log lines `CreateIntent 100 USDC(arbitrum) -> 10 AVAX(avax)` and `IntentFilled 100 USDC(arbitrum) -> 9.5 AVAX(avax)` |
| Scenarios.SingleFilledReports | lib/sodax/pairing.ts:129-157 | with one stored filled intent, the list is that intent and its percentage is the mean, maximum and minimum, with count 1 |
| Scenarios.EndToEndReports | lib/sodax/pairing.ts:129-157 | after the scenario, `getIntents` lists the one filled intent and `getStats` reports count 1 and -5 % throughout |
| Scenarios.DecimalExactness | lib/sodax/pairing.ts:111-115 | the slippage between the 18-digit amounts of the example lines is exact: 0.101915199393152451 |
| Scenarios.SpellingIgnored | lib/sodax/pairing.ts:35 | a fill spelling its from-amount "100.0" still completes the quote spelling it "100" |

## Left out

- decimal.js rounding and formatting: arithmetic and division are rounded to 20 significant digits, and small or large values print in exponent notation. Amounts are exact rationals here. The string round trip of `pct` through `toString` and `new Decimal` in `getStats` (pairing.ts:117-119,143) is therefore the identity, and the average is exact.
- Timestamps: `created_at` is a string converted with `Number()` when sorting (pairing.ts:133-135). The model uses integers, so a non-numeric timestamp (NaN) and the `||` fallback for an empty timestamp string are not modelled.
- The random suffix of the intent id (pairing.ts:74): an intent is named after the message that created it, which is fresh because message ids are deduplicated.
- Aliasing: the source mutates the intent object held in the `Map` in place (pairing.ts:86-99). The model stores intents as values and writes back the updated value.
- The `if (!key) return;` guard (pairing.ts:48): it cannot fire for a quote or fill, because the regex makes every field present and non-empty. `ProcessMessage` takes the key directly, and `Intents.LookupKey` proves it exists.
- Correlation.Ingest, and every member built on it (the `Correlation`, `Service` and `Scenarios` rows citing pairing.ts:38-100), files messages under the field-by-field key `Intents.LookupKey`, the corrected key of "## Findings", not under the `_`-joined string of pairing.ts:35. Two routes whose joined strings collide, such as token `A_B` on chain `c` and token `A` on chain `B_c`, are paired by the source but kept apart by the model.
- Service.PairingService.ProcessMessages: the exception a malformed amount throws is modelled as the returned flag `raised`, not as an exception propagated to the caller.
- The rest of the repository is not part of this model: the HTTP client with its chunking, backoff and cache (lib/sodax/api.ts), the route handler, the React pages and components, and the `pairingService` singleton (pairing.ts:161).
- Only the message fields the pairing reads (`id`, `created_at`, `action_detail`) are modelled.

## Findings

| source | as written | input that shows it | evidently intended | confidence | as-written member | corrected member |
|---|---|---|---|---|---|---|
| lib/sodax/pairing.ts:35 | the match key joins amount, from-token, from-chain, to-token and to-chain with `_`, but tokens (`\w+`) and chains (`[\w.]+`) may themselves contain `_` | quote `CreateIntent 1 A_B(c) -> 2 X(y)` and fill `IntentFilled 1 A(B_c) -> 2 X(y)` get the same key `1_A_B_c_X_y`, so the fill would complete a quote for a different route | messages share a key only when amount, tokens and chains are equal field by field | medium; not executed | Intents.WrittenKeyCollision | Intents.SameKeyIffSameRoute |
