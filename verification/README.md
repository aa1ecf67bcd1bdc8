# Verified models of the Core Lightning plugins

This project models four pieces of the plugin collection in Dafny and proves properties of them that hold for every
input or every run:

- **Signed balance statements** (`reserves-attestor-plugin`): the fold of `listfunds` and `listpeerchannels` into six
  64-bit buckets, the signed text, its armor, the self-check, and the JSON copy. The printer is proved invertible, the
  armor is proved to split exactly under an exact condition, and the arithmetic is proved exact under the supply cap and
  exact modulo 2^64 without it.
- **Log redaction and operator extraction** (`rpc-log-plugin`): the recursive eraser, the recursive search, and the rune
  decoder between them. What redaction forgets is characterised exactly, and so is the set of runes that are understood.
- **Metrics** (`metrics-plugin`): the cache snapshot, the collector, the event counters, the bearer check, and the whole
  plugin as a concurrent state machine whose invariants hold in every interleaving.
- **Socket framing** (`event-plugin`): the loop that reads until the buffer parses as JSON, proved independent of how the
  stream is cut into reads.

`Reconciliation` joins the first and third: both plugins reduce the same responses and what they report agrees.

## How the code is modelled

| file | source |
|---|---|
| `Statement.dfy`, `Decimal.dfy` | `build_message_block`, `total_msat`: functions `Statement.BuildMessageBlock` and `BalanceStatementInputs.TotalMsat`, plus a parser |
| `StatementArmor.dfy` | `build_signed_statement` and the extractor a verifier uses |
| `ReserveInputs.dfy`, `ClnResponses.dfy` | `fetch_inputs`: two loops over mutable accumulators |
| `SignedBalance.dfy` | `get_signed_balance` |
| `Redaction.dfy`, `RuneSearch.dfy` | `sanitize_json_*`, `is_sensitive_key`, `rune_from_json_*`, `on_hook_rpc_command` |
| `Rune.dfy`, `Base64Url.dfy`, `Utf8.dfy` | `rune_tag` |
| `MetricsCache.dfy` | `cache::fetch` |
| `Series.dfy`, `Collector.dfy` | `DerivedCollector::collect` |
| `EventCounters.dfy` | `EventCounters` and the notification handlers, as a class |
| `MetricsProtocol.dfy` | refresh loop, scrapes, status calls and handlers around the shared lock, as a state machine |
| `RefreshLoop.dfy` | `spawn_refresh_loop`, as a class whose passes are runs of that state machine |
| `Auth.dfy` | `validate_token`, `tokens_match`, `is_authorized` and the choice of the guard at startup |
| `JsonText.dfy`, `JsonSyntax.dfy`, `ReadLoop.dfy` | the read loop of `rpc_getinfo_node_id`, over a reader of JSON text and a grammar that says what each text means |
| `Reconciliation.dfy` | attestor and metrics together |
| `JsonValues.dfy` | JSON values, as both JSON models use them |
| `Splitting.dfy`, `Text.dfy`, `Sums.dfy`, `MachineInts.dfy`, `Wrappers.dfy` | splitting, lines and substrings, exact sums, wrapping integers, result types |

Modelling decisions:

- Integers are 64-bit and wrap, as in a release build (`MachineInts`). The reference value is always the exact,
  unbounded sum (`Sums.SumBy`).
- CLN's answers, the time, `signmessage`, `checkmessage` and the parsing of a node id are arbitrary values and functions
  (`ReserveInputs.Rpc`). Nothing is assumed of them but that node id, network and signature contain no newline, and only
  where a theorem says so.
- Times are printed to the second, for any year, with a sign and at least four digits outside 0 to 9999; second 60 is a
  leap second.
- Lower-casing of keys is any function that leaves the empty key empty. A JSON object is its entries in the iteration
  order of its map.
- The JSON reader is parametric in how number and string bodies become values, in how a map takes a member, repeated
  keys included, and in the nesting limit, so its theorems hold for the library's choices.
- A scrape or status call reads the cache one field at a time while it holds the read lock; a refresh writes it one field
  at a time under the write lock, releases the lock, and sets the timestamp afterwards.
- Two lemmas that only unfold definitions tie the parts together: `SignedBalance.AnswersOnlyVerified` (the command answers
  exactly when every call succeeds and the self-check verifies) and `EventCounters.HitsSnoc` (lists of notifications grow
  as the class's `Handle` grows them).

Where the code and the documentation differ, the model follows the code:

- `reserves-attestor-plugin/README.md` lets a reader take the message to be what lies between the armor lines. That fails
  when the configured service name itself contains the BEGIN SIGNATURE line; `StatementArmor.StatementExtraction` gives
  the exact condition and `StatementArmor.MarkerInNameBreaksExtraction` an instance.
- `reserves-attestor-plugin/tests/test_plugin.py:56-58` expects the JSON total to be the sum of the two balances. That
  holds under the supply cap (`SignedBalance.AmountsAgreeWithinSupply`), in general under the exact condition of
  `SignedBalance.JsonTotalExact`, and fails for the node of `SignedBalance.JsonTotalWraps`.
- `rpc-log-plugin/README.md` says that methods outside the list are not uploaded. That holds exactly when the list is not
  empty (`RuneSearch.OnlyListedUploaded`); an empty list uploads every method (`RuneSearch.EmptyListUploadsAll`).
- `metrics-plugin/README.md` speaks of 16 characters; the code counts bytes. `Auth.MinimumExact` says exactly which
  shorter tokens are accepted and `Auth.ShortTokenAccepted` gives one of eight characters. A token that is long enough
  but not visible ASCII is accepted at startup and then no request can present it (`Auth.NonAsciiTokenLocksOut`).

## Model

| member | source | states |
|---|---|---|
| `Statement.PrintingIsInvertible` | reserves-attestor-plugin/src/statement.rs:44-91 | A text parses to a service name and inputs if and only if it is the block printed from them and node id and network are single-line: any service name, even one with newlines, all i64 amounts, all u32 heights, all times. |
| `Statement.BlocksDetermineInputs` | reserves-attestor-plugin/src/statement.rs:44-91 | Two blocks are the same text exactly when service name and every input are the same. |
| `Statement.BlockIsLiteral` | reserves-attestor-plugin/src/statement.rs:45-90 | For every service name and inputs the block is the joined 19 literal lines, each amount behind its own caption and before its own note. |
| `Statement.TimeIsLiteral` | reserves-attestor-plugin/src/statement.rs:51-54 | The time is year, month, day, hour, minute and second, two digits each after the year, with the literal separators. |
| `Statement.YearIsLiteral` | reserves-attestor-plugin/src/statement.rs:53 | The year is four digits from 0 to 9999, a sign and four digits down to -9999, and a sign and all digits beyond. |
| `Statement.ParseTimeText` | reserves-attestor-plugin/src/statement.rs:51-54 | The printed time (RFC 3339, section 5.6) determines the time, for every year, by positions counted from its end. |
| `Statement.ParseAmountOf` | reserves-attestor-plugin/src/statement.rs:57-87 | The amount is recovered from its line for every i64, the minimum included. |
| `Decimal.ParseIntText` | reserves-attestor-plugin/src/statement.rs:55-65 | Decimal printing of any integer is inverted by a reader that accepts canonical text only. |
| `Decimal.IntTextDigits` | reserves-attestor-plugin/src/statement.rs:55-65 | Each printed character is the decimal digit of its power of ten, with no leading zero and no digit missing, behind a minus sign for a negative number. |
| `StatementArmor.CutsAfter` | reserves-attestor-plugin/tests/test_plugin.py:26-29 | A split at the first marker line cuts right after the message exactly when the marker does not occur in the message and the newline the armor adds; the overlap of two markers in one newline is the only one possible. |
| `StatementArmor.ArmorIsLiteral` | reserves-attestor-plugin/src/statement.rs:96-100 | The armored statement is the three literal marker lines around message and signature. |
| `StatementArmor.ExtractionExact` | reserves-attestor-plugin/src/statement.rs:96-100 | For any message at all and a single-line signature, extraction returns exactly message, signature and nothing left over if and only if the message and the armor's newline lack the BEGIN SIGNATURE line. |
| `StatementArmor.StatementExtraction` | reserves-attestor-plugin/tests/test_plugin.py:22-31 | For a statement block the condition is that the service name lacks the BEGIN SIGNATURE line: no other field can contribute to a marker, in whole or in part. |
| `StatementArmor.StatementDeterminesInputs` | reserves-attestor-plugin/src/statement.rs:44-100 | From the armored statement alone a verifier recovers signature, service name and every input. |
| `StatementArmor.MarkerInNameBreaksExtraction` | reserves-attestor-plugin/src/statement.rs:96-100 | A concrete service name with which extraction does not return what was signed. |
| `ReserveInputs.FoldOutputs` | reserves-attestor-plugin/src/rpc.rs:73-90 | The loop over outputs, wrapping at each step, ends with each bucket's exact sum wrapped once. |
| `ReserveInputs.FoldChannels` | reserves-attestor-plugin/src/rpc.rs:92-103 | The same for our side of open and pending channels. |
| `ReserveInputs.FetchInputs` | reserves-attestor-plugin/src/rpc.rs:53-117 | Fails with the first failing call and otherwise returns the six sums under the right fields. |
| `ReserveInputs.OneMoreOutput` | reserves-attestor-plugin/src/rpc.rs:78-90 | One more output adds its amount to exactly the field of its status and reserved flag and changes nothing else; a spent one changes nothing. |
| `ReserveInputs.OneMoreChannel` | reserves-attestor-plugin/src/rpc.rs:95-103 | One more channel adds our side, if given, to the open amount in CHANNELD_NORMAL and to the pending amount in any other state. |
| `ReserveInputs.EmptyNode` | reserves-attestor-plugin/src/rpc.rs:73-116 | With nothing listed every amount is 0, and node id, network, height and time are passed through. |
| `ReserveInputs.BucketsConserve` | reserves-attestor-plugin/src/rpc.rs:78-103 | The four on-chain buckets sum to all outputs that are not spent, open and pending to all our channel balances: nothing is dropped or counted twice. |
| `MachineInts.WrapsMean` | reserves-attestor-plugin/src/main.rs:90-106 | Both casts land in their own 64-bit range and change a value by a multiple of 2^64. |
| `ReserveInputs.FieldsConserveModulo` | reserves-attestor-plugin/src/rpc.rs:73-103 | With wrapping and no bound, the fields and the total still add up modulo 2^64. |
| `ReserveInputs.OrderIrrelevant` | reserves-attestor-plugin/src/rpc.rs:78-103 | The inputs do not depend on the order in which outputs and channels are listed. |
| `ReserveInputs.NoStepOverflows` | reserves-attestor-plugin/src/rpc.rs:79-102 | With each list within 21 million bitcoin, no cast and no accumulator overflows at any step of either loop. |
| `ReserveInputs.ExactWithinSupply` | reserves-attestor-plugin/src/statement.rs:37-39 | Within the same bound every field is the exact sum, not negative, and the total is the true sum of its two parts. |
| `SignedBalance.ResponseMirrors` | reserves-attestor-plugin/src/main.rs:89-109 | Each JSON field converts back to its own input; the numbers are the same as in the text exactly when no amount is negative. |
| `SignedBalance.AnswerExtracts` | reserves-attestor-plugin/src/main.rs:68-89 | An answer's statement is the literal armor around the text that was passed to `signmessage` and its signature; a verifier extracts these if and only if the service name lacks the BEGIN SIGNATURE line. |
| `SignedBalance.FirstFailure` | reserves-attestor-plugin/src/main.rs:64-87 | A failure is that of the first failing call in the source's order, or the failed self-check with the recovered key. |
| `SignedBalance.EndToEnd` | reserves-attestor-plugin/src/main.rs:59-112 | With such a name, what is extracted passed `checkmessage` for the returned node id, and parses to the service name and the very inputs the JSON copy mirrors. |
| `SignedBalance.AmountsAgreeWithinSupply` | reserves-attestor-plugin/src/main.rs:90-106 | Within the supply cap text and JSON agree number for number, the total is the sum of the two balances, and the fields sum to all unspent outputs and all our balances. |
| `SignedBalance.JsonExactModulo` | reserves-attestor-plugin/src/main.rs:90-106 | Without the cap each JSON amount is the exact sum modulo 2^64, through the casts to i64 and back. |
| `SignedBalance.JsonTotalExact` | reserves-attestor-plugin/src/main.rs:89-102 | The JSON total is the sum of the two JSON balances if and only if the confirmed and the open sum, each reduced to 64 bits, stay below 2^64 when added. |
| `SignedBalance.JsonTotalWraps` | reserves-attestor-plugin/src/main.rs:89-102 | A node whose answer has balances 2^64 - 1 and 1 and total 0. |
| `Base64Url.DecodesExactly` | rpc-log-plugin/src/rune.rs:11-12 | The padded base64url decoder (RFC 4648, section 5) accepts exactly the encoder's output, and returns its bytes. |
| `Base64Url.AlphabetExact` | rpc-log-plugin/src/rune.rs:11-12 | The symbols are the URL-safe alphabet, literally. |
| `Base64Url.GroupsExact` | rpc-log-plugin/src/rune.rs:11-12 | Three bytes are written as 24 bits, six at a time and most significant first, with one and two bytes padded. |
| `Utf8.DecodesExactly` | rpc-log-plugin/src/rune.rs:14-17 | The strict UTF-8 decoder accepts exactly the encodings of text. |
| `Utf8.CharBytes` | rpc-log-plugin/src/rune.rs:14-17 | The bytes of each character have the ranges and bits of RFC 3629, section 3. |
| `Splitting.PiecesOfJoined` | rpc-log-plugin/src/rune.rs:20 | Splitting at separator characters undoes joining with any mix of them; used with `&` and the vertical bar for runes and with the newline for statements. |
| `Splitting.JoinedOfPieces` | rpc-log-plugin/src/rune.rs:20 | And joining undoes splitting, for every text and every set of separators. |
| `Rune.FirstOperatorExact` | rpc-log-plugin/src/rune.rs:21 | The tag found is the remainder of the first tagged part; none is found only if no part is tagged. |
| `Rune.RuneTagRoundTrip` | rpc-log-plugin/src/rune.rs:10-23 | Any 32 bytes followed by any joined parts, encoded, give the first operator or none. |
| `Rune.RuneTagExact` | rpc-log-plugin/src/rune.rs:10-23 | A rune is understood with a given result if and only if it is the encoding of some prefix and parts with that first operator. |
| `Rune.TagExact` | rpc-log-plugin/src/rune.rs:10-23 | A rune has a tag if and only if it encodes 32 bytes and parts between `&` and vertical bars, the first of them that starts with "operator#" being "operator#" and the tag. |
| `Rune.RuneErrorsExact` | rpc-log-plugin/src/rune.rs:12-17 | A rune is invalid exactly when it encodes no bytes, and its metadata exactly when it encodes fewer than 32 or no text behind them. |
| `Redaction.CheckSensitiveKey` | rpc-log-plugin/src/main.rs:252-259 | The loop returns whether the lower-cased key contains one of the thirteen literal names. |
| `Redaction.SensitiveExact` | rpc-log-plugin/src/main.rs:21-35 | A key is sensitive if and only if its lower-cased form is one of the thirteen names with any text around it. |
| `Redaction.NameInsideKey` | rpc-log-plugin/src/main.rs:21-35 | Every key that puts text around one of the thirteen names counts. |
| `Redaction.SecretsMasked` | rpc-log-plugin/src/main.rs:229-250 | At any depth of a redacted value, a key that names a secret holds "***". |
| `Redaction.OpenKept` | rpc-log-plugin/src/main.rs:229-250 | Where no key on the way names a secret, a node is there exactly if it was, with its key and its scalar, keys or length. |
| `Redaction.LookSanitized` | rpc-log-plugin/src/main.rs:229-250 | Along every path, a redacted value shows the same scalars, key lists and lengths as the original, or hides the same. |
| `Redaction.RedactionKernel` | rpc-log-plugin/src/main.rs:229-259 | Two values redact to the same value if and only if they look the same along every path that does not pass a sensitive key, at any depth. |
| `Redaction.SanitizedIsRedacted` | rpc-log-plugin/src/main.rs:229-250 | After redaction every value under a sensitive key is the mask. |
| `Redaction.RedactionFixpoints` | rpc-log-plugin/src/main.rs:229-250 | Redaction leaves a value alone exactly when it is already redacted; it is idempotent. |
| `RuneSearch.SearchIsFirst` | rpc-log-plugin/src/main.rs:191-205 | The recursive search agrees with a linear search of the pre-order list of keys and values. |
| `RuneSearch.SearchExact` | rpc-log-plugin/src/main.rs:191-205 | It returns an operator if and only if it is that of the first node carrying one, past runes that do not decode or have no tag. |
| `RuneSearch.SearchByPosition` | rpc-log-plugin/src/main.rs:191-205 | The search finds an operator if and only if some position carries it, a string under a key containing "rune" that decodes to a tagged rune, and no earlier position in document order carries one. |
| `RuneSearch.NothingExtractable` | rpc-log-plugin/src/main.rs:139-140 | No caller can be extracted from any redacted tree. |
| `RuneSearch.LoggedCaller` | rpc-log-plugin/src/main.rs:133-157 | A logged caller is the first operator of the request, from a rune under a key that the logged body masks, and cannot be found in that body. |
| `RuneSearch.LoggedBodyHidesSecrets` | rpc-log-plugin/src/main.rs:136-150 | Two logged bodies are equal exactly when the requests look alike outside sensitive keys. |
| `RuneSearch.LoggedSecretsMasked` | rpc-log-plugin/src/main.rs:136-150 | At any depth of a logged body, a key that names a secret holds "***". |
| `RuneSearch.CallerByPosition` | rpc-log-plugin/src/main.rs:139-149 | The logged caller is that of the first position of the parameters that carries one, and is missing exactly if none does. |
| `RuneSearch.UploadedExact` | rpc-log-plugin/src/main.rs:65-71 | A command is uploaded if and only if the list is empty or names its method, under its own method and request id. |
| `RuneSearch.OnlyListedUploaded` | rpc-log-plugin/src/main.rs:65-71 | Nothing but listed methods is uploaded if and only if the list is not empty. |
| `RuneSearch.EmptyListUploadsAll` | rpc-log-plugin/src/main.rs:66-68 | With an empty list every method is uploaded, with its redacted body and its caller. |
| `MetricsCache.CountPeers` | metrics-plugin/src/cache.rs:86-122 | The loop yields one record per channel in order and, in its two maps, exact counts per peer id. |
| `MetricsCache.ListPeers` | metrics-plugin/src/cache.rs:124-135 | Draining the map in any order gives each peer id once with its counts. |
| `MetricsCache.Fetch` | metrics-plugin/src/cache.rs:56-146 | A fetch succeeds exactly when its three calls do, and its snapshot has the exact sums, records and peer aggregates. |
| `MetricsCache.WrappingSumExact` | metrics-plugin/src/cache.rs:74-84 | A sum that casts and wraps at each term is the exact sum wrapped once. |
| `MetricsCache.PeersAccountForChannels` | metrics-plugin/src/cache.rs:86-135 | Channel counts over peers sum to the channel count, connected counts to the connected channels and never exceed the former; a peer is connected exactly when some channel is. |
| `Series.GaugeShowsLast` | metrics-plugin/src/metrics.rs:418-432 | A gauge has a series per label that occurs, holding the value of the last item with that label. |
| `Series.CounterShowsSum` | metrics-plugin/src/metrics.rs:436-459 | A counter's series is the sum over all items with its label, modulo 2^64. |
| `Series.SoleSeries` | metrics-plugin/src/metrics.rs:418-460 | Under a label that only one item has, gauge and counter show that item's value, whatever collides under other labels. |
| `Series.GaugesAddUp` | metrics-plugin/src/metrics.rs:418-432 | Over any listing of its labels a gauge sums to the sum over the snapshot less the items overwritten by a later one of the same label, and nothing is overwritten when labels are distinct. |
| `Series.CountersAddUp` | metrics-plugin/src/metrics.rs:436-459 | Over any listing of labels a counter sums to the sum over the items with those labels, modulo 2^64, colliding or not. |
| `Collector.CollectGauges` | metrics-plugin/src/metrics.rs:394-432 | The per-channel gauges a scrape builds are those of the last channel per label, field by field. |
| `Collector.CollectCounters` | metrics-plugin/src/metrics.rs:400-460 | The eight per-channel counters are the accumulated fields. |
| `Collector.CollectPeers` | metrics-plugin/src/metrics.rs:476-492 | The peer gauges are the peers' fields. |
| `Collector.Collect` | metrics-plugin/src/metrics.rs:360-499 | A whole scrape is a function of the cached snapshot alone, so of nothing that earlier scrapes left behind. |
| `Collector.LiquidityAddsUp` | metrics-plugin/src/metrics.rs:386-428 | The spendable and receivable series, plus what a later channel of the same label overwrote, add up to the two liquidity totals of the same scrape; with distinct labels nothing is overwritten. |
| `Collector.ScrapeShowsCounters` | metrics-plugin/src/metrics.rs:433-459 | From fetch to scrape: under the label of a sole channel each counter shows CLN's own u64, undamaged by the signed snapshot. |
| `Collector.ScrapeShowsGauges` | metrics-plugin/src/metrics.rs:418-432 | Likewise the gauges show CLN's amounts as signed numbers. |
| `Collector.ScrapeShowsTotals` | metrics-plugin/src/metrics.rs:364-392 | The scalar gauges by name against CLN's own responses: height, fees, wallet outputs and channels and their total, liquidity both ways, channels and peers. |
| `Collector.ScrapeShowsPeers` | metrics-plugin/src/metrics.rs:481-496 | The three series of each peer by name: whether a channel of it is connected, how many it has and how many are connected; a peer without channel has none. |
| `Collector.PeerOrderIrrelevant` | metrics-plugin/src/metrics.rs:481-492 | The peer series do not depend on the iteration order of the hash map. |
| `EventCounters.Counters.OnForwardEvent` | metrics-plugin/src/metrics.rs:92-96 | Adds one increment of the status's series; all counters stay the series of the increments so far. |
| `EventCounters.Counters.OnChannelOpened` | metrics-plugin/src/metrics.rs:98-100 | Likewise for channels opened. |
| `EventCounters.Counters.OnChannelStateChanged` | metrics-plugin/src/metrics.rs:102-119 | Likewise for the pair of states, a missing old state counted as "unknown". |
| `EventCounters.Counters.OnHtlcAccepted` | metrics-plugin/src/metrics.rs:121-123 | Likewise for HTLCs accepted. |
| `EventCounters.Counters.Handle` | metrics-plugin/src/events.rs:19-43 | Each kind of notification adds one to its own field or labelled series and changes nothing else; one that does not deserialize is an error and changes nothing. |
| `EventCounters.FieldsAreCounts` | metrics-plugin/src/metrics.rs:92-123 | After any notifications the fields are the numbers of notifications of each kind and label, modulo 2^64. |
| `EventCounters.OpenedIsCount` | metrics-plugin/src/events.rs:19-22 | The channel counter is the number of channel_opened notifications. |
| `EventCounters.AcceptedIsCount` | metrics-plugin/src/events.rs:30-34 | The HTLC counter is the number of htlc_accepted calls. |
| `EventCounters.ForwardsIsCount` | metrics-plugin/src/events.rs:24-28 | The series of a status is the number of well-formed forward events with that status. |
| `EventCounters.TransitionsIsCount` | metrics-plugin/src/metrics.rs:102-111 | The series of two states is the number of well-formed changes between them, a missing old state being "unknown". |
| `EventCounters.CounterIsCount` | metrics-plugin/src/metrics.rs:92-123 | Each counter is the number of notifications that name it, modulo 2^64, and a labelled series exists exactly when there was one. |
| `EventCounters.OrderIrrelevant` | metrics-plugin/src/events.rs:19-43 | All counters depend only on the multiset of notifications. |
| `EventCounters.CountersCoverEvents` | metrics-plugin/src/events.rs:19-43 | Any listing of counters sums to the number of notifications that name one of them, modulo 2^64. |
| `EventCounters.ForwardsAddUp` | metrics-plugin/src/events.rs:24-28 | The statuses' series sum to the number of well-formed forward events, whatever else arrived. |
| `EventCounters.TransitionsAddUp` | metrics-plugin/src/events.rs:36-43 | The state pairs' series sum to the number of well-formed state changes. |
| `EventCounters.CountsMonotone` | metrics-plugin/src/metrics.rs:92-123 | Further notifications never lower a counter that has not wrapped. |
| `MetricsProtocol.EveryRunKeepsInv` | metrics-plugin/src/main.rs:142-169 | In every interleaving, every reachable state keeps the invariant on cache, lock, readers, observations, refresh accounting and counters. |
| `MetricsProtocol.HistoryExact` | metrics-plugin/src/main.rs:142-169 | What is fetched, published and observed is what the steps of the run say; a finished reader has observed exactly the fields it read since it took the lock. |
| `MetricsProtocol.ScrapeSucceeds` | metrics-plugin/src/metrics.rs:361-499 | Whenever no write is under way a new reader can take the lock, read any fields in any order and let go; it observes exactly these, as they are in the cache, and with all four the whole current generation. |
| `MetricsProtocol.FullReadReports` | metrics-plugin/src/metrics.rs:360-499 | In any run, a reader that has read all four fields reports the families of the last published generation. |
| `MetricsProtocol.ScrapesAreNeverTorn` | metrics-plugin/src/metrics.rs:360-499 | A scrape reports exactly the families of the default snapshot or of one successful fetch, and later scrapes never of an earlier one. |
| `MetricsProtocol.StatusIsConsistent` | metrics-plugin/src/main.rs:194-201 | The status call's channel count and block height belong to one generation. |
| `MetricsProtocol.RefreshAccounting` | metrics-plugin/src/main.rs:151-166 | What is published are the successful fetches in order, the failure counter is the number of failed ones modulo 2^64 less one not yet counted, and the timestamp is that of the cache's generation or exactly one behind. |
| `MetricsProtocol.CountersShowHandled` | metrics-plugin/src/metrics.rs:92-123 | In every interleaving each counter is the number of finished handlers that named it, modulo 2^64. |
| `MetricsProtocol.IncrementsCounted` | metrics-plugin/src/metrics.rs:92-123 | In every interleaving a counter is the number of increment steps by handlers that had looked it up, modulo 2^64. |
| `MetricsProtocol.HandlerSucceeds` | metrics-plugin/src/metrics.rs:92-123 | A new handler can always look up and increment its counter, which adds one to it and changes no other. |
| `MetricsProtocol.ReadersSeeAStillCache` | metrics-plugin/src/metrics.rs:361 | While a reader holds the lock no step of any actor changes cache or generation. |
| `MetricsProtocol.RefreshCompletes` | metrics-plugin/src/main.rs:149-160 | After any run that leaves the loop waiting and no reader in the cache, a refresh can complete, and cache, generation and timestamp are then the new ones. |
| `MetricsProtocol.RefreshFails` | metrics-plugin/src/main.rs:161-164 | A failed refresh, even with readers in the cache, changes the failure counter and nothing else that is shared. |
| `MetricsProtocol.EveryRunCanRefresh` | metrics-plugin/src/main.rs:142-169 | There is no deadlock: every run can go on until every reader and handler has finished and newly fetched data are published. |
| `RefreshLoop.PluginState.RefreshOnce` | metrics-plugin/src/main.rs:149-165 | One pass of the loop: success replaces the cache by the poll's snapshot and advances the timestamp, failure is counted and changes neither; the pass is a run of the protocol. |
| `RefreshLoop.PluginState.RefreshLoop` | metrics-plugin/src/main.rs:142-169 | After any number of polls the cache shows the last that succeeded, the timestamp counts the successes and the failure counter the rest. |
| `Auth.TrimIsCore` | metrics-plugin/src/main.rs:178-180 | Trimming removes white space at both ends and nothing else. |
| `Auth.TokensMatchExact` | metrics-plugin/src/metrics.rs:528-538 | The xor-and-or fold accepts exactly equal byte strings. |
| `Auth.AuthorizationExact` | metrics-plugin/src/metrics.rs:540-554 | A request is authorised if and only if its header is the bytes of "Bearer " and the token (RFC 6750, section 2.1), and the token is visible ASCII. |
| `Auth.AccessExact` | metrics-plugin/src/main.rs:89-102 | From environment to request: when the plugin starts, with which error it refuses, and exactly which requests it then serves. |
| `Auth.WhitespaceExact` | metrics-plugin/src/main.rs:179 | What is trimmed are the 25 white space characters, literally. |
| `Auth.NonAsciiTokenLocksOut` | metrics-plugin/src/main.rs:185-191 | A token that passes validation and that no request can present. |
| `Auth.MinimumExact` | metrics-plugin/src/main.rs:185-189 | A token of 16 characters is never too short; a shorter one is accepted if and only if its extra UTF-8 bytes make up for the missing characters, so never when it is ASCII. |
| `Auth.ShortTokenAccepted` | metrics-plugin/src/main.rs:185-189 | A token of eight characters that is accepted. |
| `JsonText.ValueLocal` | event-plugin/src/main.rs:182 | How a JSON value (RFC 8259) reads depends only on its own bytes; a number alone also needs the next one. |
| `JsonText.PrefixesThatParse` | event-plugin/src/main.rs:182 | Of all prefixes of a stream that starts with a value other than a number, exactly those parse that hold the whole value followed by white space only, and to that value. |
| `JsonSyntax.TextsExact` | event-plugin/src/main.rs:182 | A text reads as a value if and only if it is a well-formed text of the grammar, with any white space, that means this value: members entered into the object one after the other, items in order, words as themselves. |
| `JsonSyntax.TextReads` | event-plugin/src/main.rs:182 | Every well-formed printed text reads as what it means. |
| `ReadLoop.UnixStream.Read` | event-plugin/src/main.rs:177 | One read fills the front of the buffer with the next chunk, or reports end of stream or failure. |
| `ReadLoop.ReadResponse` | event-plugin/src/main.rs:174-185 | The loop that overwrites `tmp` and extends `buf` computes its recursive specification, and so returns the meaning of any written text the stream holds, however cut. |
| `ReadLoop.WrittenTextReturned` | event-plugin/src/main.rs:176-185 | However a written text other than a number is cut into reads, the loop returns what it means. |
| `ReadLoop.ReturnedIsWritten` | event-plugin/src/main.rs:176-185 | Whatever the loop returns is the meaning of a text that the first reads spell out. |
| `ReadLoop.ErrorExact` | event-plugin/src/main.rs:177-180 | A failure is that of the read exactly when the stream fails, and otherwise that the socket was closed. |
| `ReadLoop.LoopExact` | event-plugin/src/main.rs:176-185 | The loop returns a value if and only if some read ends after the value with only white space behind it, and then the value the stream starts with. |
| `ReadLoop.ChunkingIrrelevant` | event-plugin/src/main.rs:176-185 | However an object text with trailing white space is cut into reads, the loop returns that object. |
| `ReadLoop.TruncatedStreamFails` | event-plugin/src/main.rs:178-184 | If the stream ends or fails before the closing brace the loop fails; it never stops inside the value. |
| `ReadLoop.NumbersDependOnChunking` | event-plugin/src/main.rs:182-184 | Why the response must not be a bare number: two cuts of the same bytes give different values. |
| `ReadLoop.CutsAgreeExact` | event-plugin/src/main.rs:176-185 | For any text that fits one read, every cut returns its value if and only if no prefix is a text of another value. |
| `ReadLoop.NumberCutsExact` | event-plugin/src/main.rs:176-185 | For a number that means: no proper prefix of its bytes reads as a number of another value. |
| `Reconciliation.ReconcilesModulo` | metrics-plugin/src/cache.rs:74-108 | On the same responses and with no bound, the metrics' on-chain total is the attestor's four on-chain amounts plus spent outputs listed, and the channel balances its open and pending amounts, modulo 2^64. |
| `Reconciliation.ScrapeMatchesStatement` | reserves-attestor-plugin/src/rpc.rs:78-103 | Within the supply cap the same holds number for number between a signed balance and a scrape, the balance series taken with what colliding labels overwrote, which is nothing when labels are distinct. |

## Left out

- Concurrency as objects: lock, atomics and concurrent readers are a state machine over values, not shared objects;
  `RefreshLoop.PluginState` has the loop's own fields but no reader between two of its statements.
- RefreshLoop.PluginState.RefreshLoop: runs a finite list of polls, because the source's loop never ends; the list is arbitrary.
- The value of the refresh timestamp: only the generation it belongs to is modelled, since the clock may go back.
- Lock poisoning, panics and process crashes.
- Floating point: gauges hold integers; as 64-bit floats they are exact up to 2^53 in magnitude.
- Reconciliation.ScrapeMatchesStatement: takes both plugins to have received the same responses; they poll at different times.
- Cryptography: signing, recovery and the zbase32 text are functions of which only the absence of newlines is assumed.
- Unicode lower-casing tables: any lower-casing that keeps the empty key empty.
- Object key collisions when redacted entries are collected into a map again: keys are unchanged, so there are none.
- Everything after the read loop in `rpc_getinfo_node_id`: the request bytes, the pointer look-ups and the hex decoding.
- Number syntax and string escapes of JSON and the treatment of repeated keys: they are parameters, and no claim is made
  about which of them are valid.
- `upload_rpc_log`, object names and Google Cloud Storage; RabbitMQ, protobuf messages and Snowflake ids.
- Option handling, including how the list of logged methods is split, and the precedence of configuration sources.
- The metrics server, text encoding of metrics, metric descriptions, constant labels and `register_build_info`.
- Channel states other than CHANNELD_NORMAL are kept as text labels only; the attestor treats them alike.
