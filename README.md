# Event-log codec of web3.php, in Dafny

This project models the event-log codec of the PHP library web3.php
(`src/Contracts`) and proves properties of the model. The codec has three
parts:

- **Filter encoder** (`Event::_encodeABI`). It turns an event query's
  options into an `eth_getLogs` filter: `fromBlock`, `toBlock`, `address`
  and `topics`. Each topic slot is a wildcard (`null`), one encoded value,
  or a list of encodings (an OR-match).
- **Log decoder** (`Event::_decodeABI` and `Event::decodeLog`). It checks
  the topic count and drops the signature topic. It then walks the ABI
  inputs with a topic cursor: an indexed input takes its topic, decoded or
  raw according to its type. The non-indexed inputs are batch-decoded from
  the data blob, and both results are merged into one ordered record. It
  updates the log object in place.
- **Receipt decoder** (`TxReceipt::decode`). It formats the receipt, then
  maps over its log objects in place. A log whose first topic is not a
  known signature is passed through. Every other log is formatted, checked
  and decoded, and the first exception ends the map.

Modules, one file each:

- `Php` (php.dfy) holds the PHP semantics the codec relies on: `Value`,
  truthiness, `isset`, and ordered arrays with string keys (`Dict`).
  Assignment keeps an existing key's position and appends a new one;
  `array_merge`, `array_combine` and `unset` follow the same rule.
- `Abi` (abi.dfy) holds ABI inputs, event definitions, the error kinds, and
  `decodeLog`: a loop method proved against the reference function
  `DecodeLogSpec`.
- `Logs` (logs.dfy) holds the log object (a class whose fields are the
  properties the codec touches), its value `LogState`, and the log
  formatter.
- `Events` (events.dfy) holds the `Event` query, its constructor, the filter
  encoder, and the log decoder on a log object.
- `Receipts` (receipts.dfy) holds the receipt object and `decode` over its
  log objects.

The scalar ABI codec is a record of functions (`Abi.Codec`): event
signature, parameter encode, parameter decode and batch decode. So are the
formatting helpers (`Abi.Helpers`): `hexdec`, the EIP-55 checksum and the
block-tag formatter. Every property holds for any such functions. Where a
property needs `decodeParameter` to invert `encodeParameter`, that is an
explicit precondition (`Events.RoundTrips`). The random log ids are
parameters.

Each imperative operation is a method proved against a function of its
inputs and old state:

- `EncodeABI` against `FilterArray(FilterFor(..))`;
- `DecodeLog` against `DecodeLogSpec`;
- `DecodeABI` against `DecodeEventLog`;
- `Decode` against `DecodedLog` and `ReceiptError`.

The lemmas state what those functions mean.

## Model

| member | source | states |
|---|---|---|
| Events.FirstNamed | src/Contracts/Event.php:90 | the result is the position of the first event with that name, and `None` exactly when no event has it |
| Events.NewEventSpec | src/Contracts/Event.php:87-94 | `ALLEVENTS` keeps the contract's whole event table. Any other name fails with `EventNotFound` exactly when no event has that name. Otherwise the query is for the first event with that name, and its signature comes from `encodeEventSignature` |
| Events.EncodeABI | src/Contracts/Event.php:152-194 | the array built key by key equals the filter `FilterArray(FilterFor(..))`: keys in the order `fromBlock`, `toBlock`, `address`, `topics`, each present or not |
| Events.BlockKeys | src/Contracts/Event.php:157-161 | `fromBlock` and then `toBlock` are set only when their options are set; a subscription unsets a `toBlock` whose formatted value is not `null`; no other key is set |
| Events.AssignNew | src/Contracts/Event.php:157-166 | assigning a key the array does not hold appends it |
| Events.FilterArrayGet | src/Contracts/Event.php:152-194 | each key of the returned array holds the filter's value for that key |
| Events.EncodeABIKeys | src/Contracts/Event.php:157-170 | `fromBlock` is present exactly when its option is set. `toBlock` is present exactly when its option is set and a subscription does not drop it. `address` is present exactly when the to-address is truthy, and holds it. An explicit `topics` list is returned verbatim. `topics` is present exactly when such a list is given or the event is named, so `ALLEVENTS` without explicit topics has none |
| Events.NamedTopicsLength | src/Contracts/Event.php:169-192 | the derived topics hold one slot for the signature, only when the signature is truthy and the event is not anonymous, then one slot per indexed input |
| Events.NamedTopicsSlot | src/Contracts/Event.php:176-191 | the k-th indexed input's slot comes right after the signature slot and its k predecessors, in declaration order |
| Events.IndexedTopics | src/Contracts/Event.php:176-190 | the filter/map pipeline gives one slot per indexed input, and slot k is the slot of the k-th indexed input |
| Events.TopicSlotCases | src/Contracts/Event.php:180-189 | a slot is `null` exactly when the filter value is missing or falsy; a list gives a list of the same length of its items' encodings; a scalar gives its encoding |
| Abi.IndexedInputs | src/Contracts/Event.php:176-178 | never more indexed inputs than inputs |
| Abi.InputsMembers | src/Contracts/Event.php:176-178 | the indexed inputs are exactly the inputs flagged `indexed`, and the non-indexed inputs (the `else` branch at lines 278-280) exactly the others |
| Abi.InputsAppend | src/Contracts/Event.php:176-178 | both filters keep declaration order: filtering a concatenation concatenates the filtered parts |
| Abi.LeadingAlpha | src/Contracts/Event.php:273 | the match of `/^([a-zA-Z]+)/`: the longest prefix of ASCII letters |
| Abi.DecodeLog | src/Contracts/Event.php:262-286 | the loop with its topic cursor, its two accumulating arrays, and then `array_combine` and `array_merge`, returns exactly `DecodeLogSpec`. `TxReceipt::decodeLog` (src/Contracts/TxReceipt.php:107-131) is the same code and is modelled by this member |
| Abi.IndexedStep | src/Contracts/Event.php:270-277 | at an indexed input the cursor has counted the indexed inputs before it, stays inside the topics, and the assignment extends the indexed array by the next pair |
| Abi.NonIndexedStep | src/Contracts/Event.php:278-280 | at a non-indexed input the name→type array grows by that input |
| Abi.IndexedPairs | src/Contracts/Event.php:270-277 | the k-th indexed input is paired with the k-th topic |
| Abi.DecodeLogFailure | src/Contracts/Event.php:282-284 | decoding fails exactly when the batch decode does not give one value per distinct non-indexed name, and then with the `array_combine` error |
| Abi.DecodeLogWithoutData | src/Contracts/Event.php:282-284 | with falsy data nothing is batch-decoded, so decoding succeeds exactly when there is no non-indexed input |
| Abi.DecodeLogKeys | src/Contracts/Event.php:283-285 | the record's keys are the non-indexed names, then the indexed names, each once at its first position |
| Abi.IndexedParamsFacts | src/Contracts/Event.php:270-277 | the indexed array has one key per distinct indexed name, in first-seen order |
| Abi.IndexedParamsGet | src/Contracts/Event.php:270-277 | in the indexed array, the k-th indexed name holds the value from topic k, unless a later indexed input reuses the name |
| Abi.DecodeLogIndexedValue | src/Contracts/Event.php:270-285 | in the decoded record the k-th indexed input holds the value from topic k, decoded only for the primitive type families, unless a later indexed input reuses its name |
| Abi.DecodeLogNonIndexedValue | src/Contracts/Event.php:278-285 | with distinct names, the j-th non-indexed input holds the j-th batch-decoded value |
| Abi.CombinedNonIndexedValue | src/Contracts/Event.php:282-284 | `array_combine` pairs the j-th distinct non-indexed name with the j-th decoded value |
| Php.Put | src/Contracts/Event.php:274-279 | an assignment makes the key read the new value and leaves every other key unchanged |
| Php.KeysPut | src/Contracts/Event.php:274-279 | assigning an existing key keeps the key order; a new key is appended |
| Php.GetPutAllLast | src/Contracts/Event.php:285 | after `array_merge` a key holds the value of its last occurrence among the merged pairs |
| Php.GetPutAllUntouched | src/Contracts/Event.php:285 | `array_merge` leaves the keys it does not mention unchanged |
| Php.Combine | src/Contracts/Event.php:284 | `array_combine` fails exactly when the two lengths differ |
| Php.CombineDistinct | src/Contracts/Event.php:284 | with distinct keys, `array_combine` maps the i-th key to the i-th value |
| Php.Remove | src/Contracts/Event.php:159-161 | after `unset` the key is absent and every other key reads as before |
| Logs.ArgTopics | src/Contracts/Event.php:218 | `array_slice($topics, 1)`: one topic fewer, each shifted by one position |
| Logs.ArgTopicsSuffice | src/Contracts/Event.php:212-218 | under a passing count check, the sliced topics cover every indexed input |
| Logs.OutputLogFormatter | src/Contracts/Event.php:238-251 | the log object's new state is `FormatLog` of the old state: a fresh id, and each of `blockNumber`, `transactionIndex`, `logIndex` and `address` converted only when set |
| Events.PrepareLog | src/Contracts/Event.php:207-209 | after the defaults and the formatter, the log has `data` and `topics` |
| Events.DecodeABI | src/Contracts/Event.php:205-229 | the log object's new state and the exception thrown are `DecodeEventLog` of the old state |
| Events.PrepareLogObject | src/Contracts/Event.php:207-209 | `data` defaults to `null`, `topics` to `[]`, then the log is formatted |
| Events.DecodePreparedLog | src/Contracts/Event.php:210-228 | event resolution, the count check, decoding, and the result properties on a prepared log |
| Events.AttachResult | src/Contracts/Event.php:220-227 | sets `returnValues`, `event`, `signature` and `raw`, and unsets `data` and `topics` |
| Events.DecodeEventLogErrors | src/Contracts/Event.php:212-219 | `TopicCountMismatch` is thrown exactly when the event has indexed inputs and the log lacks exactly one more topic than that. Past the check, decoding fails exactly when `decodeLog` does. A failure leaves the log defaulted and formatted |
| Events.DecodeEventLogResult | src/Contracts/Event.php:207-227 | a decoded log has a fresh id and formatted numbers. Its decoded parameters come from the topics after the first. It holds the event name, the first topic as `signature`, and the original data and topics under `raw`. It has no top-level `data` or `topics` |
| Events.DecodedIndexedValue | src/Contracts/Event.php:216-219 | in a decoded log the k-th indexed input holds the value from topic k + 1, since the signature topic is skipped |
| Events.AnonymousLogRejected | src/Contracts/Event.php:212-217 | decoding ignores `anonymous`, so a log of an anonymous event with indexed inputs (one topic per indexed input) fails the count check |
| Events.SlotDecode | src/Contracts/Event.php:180-189 | a topic matching an indexed input's slot decodes back to the filter value, or to one of the listed values, when the codec inverts its own encoding |
| Events.FilterDecodeRoundTrip | src/Contracts/Event.php:172-219 | a log whose topics match the filter of a named, non-anonymous query decodes each indexed input of a decoded type to its filter value, or to one of the listed values |
| Receipts.OutputTxFormatter | src/Contracts/TxReceipt.php:85-96 | the receipt's set numeric properties are converted from hex and its address checksummed; nothing else changes, and no id is assigned |
| Receipts.LogFormatterExtendsTxFormatter | src/Contracts/TxReceipt.php:61-96 | `outputLogFormatter` converts the same four properties as `outputTxFormatter`, also assigns the id, and changes nothing else |
| Receipts.PrepareReceipt | src/Contracts/TxReceipt.php:24-27 | `data` defaults to `null`, `topics` to `[]`, then the receipt is formatted |
| Receipts.DecodeReceiptLog | src/Contracts/TxReceipt.php:28-49 | the closure's effect on one log object and the exception it throws are `ReceiptLogStep` of the old state |
| Receipts.DecodeKnownLog | src/Contracts/TxReceipt.php:34-47 | a known log is checked and decoded, keeping its top-level `data` and `topics` |
| Receipts.AttachReceiptResult | src/Contracts/TxReceipt.php:41-47 | sets `returnValues`, `event`, `signature` and `raw` |
| Receipts.FirstFailure | src/Contracts/TxReceipt.php:28-49 | the position of the first log whose decoding throws: every earlier log decodes without an exception |
| Receipts.DecodeLogObjects | src/Contracts/TxReceipt.php:28-50 | each log object is decoded in turn. The first exception stops the map: the logs up to it hold their decoding, and the later logs are untouched |
| Receipts.Decode | src/Contracts/TxReceipt.php:22-52 | the receipt is defaulted and formatted, its log sequence keeps the same objects in the same order, each log holds `DecodedLog`, and the exception is `ReceiptError` |
| Receipts.UnknownLogPassesThrough | src/Contracts/TxReceipt.php:29-31 | a log whose first topic is not a key of the table is returned unchanged, unformatted, and with no decoded properties |
| Receipts.UnknownLogUntouched | src/Contracts/TxReceipt.php:28-31 | within the whole receipt, an unknown log is left as it came |
| Receipts.KnownLogErrors | src/Contracts/TxReceipt.php:33-41 | a known log without `topics` throws a type error. Otherwise the exception naming the event is thrown exactly when the count check fails. A failing log is left formatted |
| Receipts.KnownLogResult | src/Contracts/TxReceipt.php:33-47 | a decoded known log has a fresh id and formatted numbers. It holds the decoded parameters, the event name, the first topic as `signature`, and `raw`. It keeps its top-level `data` and `topics` |
| Receipts.ReceiptAgreesWithAllEvents | src/Contracts/TxReceipt.php:28-47 | for a known log, the receipt decoder and an `ALLEVENTS` query over the same table fail under the same count check and succeed together. They then agree on the parameters, event, signature and raw data; only the receipt keeps `data` and `topics` |
| Receipts.ReceiptWithoutError | src/Contracts/TxReceipt.php:28-50 | the receipt decodes without an exception exactly when no log's decoding throws, and then every log holds its own decoding |
| Receipts.ReceiptErrorSource | src/Contracts/TxReceipt.php:34-39 | the log that ends the map is a known log, and a count-check exception names that log's event |

## Left out

- The RPC plumbing (`getPastLogs`, `getTxLog`, `getOptions` and their callbacks) is I/O. `getTxLog` hands `TxReceipt` a single event definition where `decode` expects a table keyed by signature. The receipt decoder is modelled with the table as its parameter.
- The scalar ABI codec, keccak-256, the EIP-55 checksum, `Bc::hexdec` and the block-tag formatter are foreign code. They are parameters of the model, not reimplemented.
- `Str::random()` and `sha3(base64_encode(random_bytes(10)))` are random. The ids are parameters (`id`, and `idOf(k)` for the k-th receipt log).
- Under `ALLEVENTS`, a log whose first topic is not in the table makes PHP read `null` with warnings and continue. The model continues the same way: no inputs, event name `null`. It gives no error for the warnings.
- A missing first topic reads as `null`, and a `null` array key is `""`. Both are modelled. The loose comparison of `in_array` is modelled only for string keys; numeric-string and integer keys are not.
- Input flags are booleans. The filter's strict `=== true` and the decoder's truthy test differ only for non-boolean `indexed` values, which are not modelled.
- Assoc arrays given as an explicit `topics` option or as a filter list value are not modelled; lists are.
- Log properties the codec never touches (`transactionHash`, `blockHash`, `removed`, ...) and other receipt properties are not part of the state. A `topics` property that is set but is not an array is not modelled.
- Receipts.Decode: it requires the receipt's log objects to be distinct. The same object listed twice, which PHP would decode twice, is not modelled.
- A receipt without a `logs` property (`collect(null)` maps over nothing) is not modelled; `logs` is always a sequence.
- PHP warnings, Laravel collection internals, and the object identity of the `(object)` cast of the decoded record are not modelled. The record is a value.
