/** A log object as the JSON-RPC layer hands it over (a PHP `stdClass`
    whose properties the decoders assign and unset in place), and the
    `outputLogFormatter` / `outputTxFormatter` field conversions of
    src/Contracts/Event.php and src/Contracts/TxReceipt.php. */
module Logs {
  import opened Php
  import opened Abi

  /** The `raw` property a decoder attaches: the log's data and topics. */
  datatype Raw = Raw(data: Value, topics: seq<string>)

  /** The properties of a log object the codec reads or writes. `None` is
      a property that is not defined on the object; `Some(Null)` is one
      that holds `null`. Properties the codec never touches
      (`transactionHash`, `blockHash`, `removed`) are not part of the state. */
  datatype LogState = LogState(
    id: Option<string>,
    address: Option<Value>,
    blockNumber: Option<Value>,
    transactionIndex: Option<Value>,
    logIndex: Option<Value>,
    data: Option<Value>,
    topics: Option<seq<string>>,
    returnValues: Option<Dict<Value>>,
    event: Option<Value>,
    signature: Option<Value>,
    raw: Option<Raw>)

  /** What decoding one log leaves behind: the log's new state and the
      exception, if one was thrown part-way. */
  datatype Step = Step(state: LogState, error: Option<Error>)

  /** `$log->topics ?? []`. */
  function TopicsOr(t: Option<seq<string>>): seq<string>
  {
    if t.Some? then t.value else []
  }

  /** `$log->topics[0]`, or `None` when there is no first topic (PHP reads
      `null` with a warning). */
  function FirstTopic(t: Option<seq<string>>): Option<string>
  {
    if t.Some? && |t.value| > 0 then Some(t.value[0]) else None
  }

  /** The array key a possibly missing signature selects: PHP uses `""` for
      a `null` key. */
  function SignatureKey(sig: Option<string>): string
  {
    if sig.Some? then sig.value else ""
  }

  /** `array_slice($topics, 1)`: the topics after the signature topic. */
  function ArgTopics(topics: seq<string>): (r: seq<string>)
    ensures |r| == if |topics| == 0 then 0 else |topics| - 1
    ensures forall k :: 0 <= k < |r| ==> r[k] == topics[k + 1]
  {
    if |topics| == 0 then [] else topics[1..]
  }

  /** The topic-count check both decoders make: only an event with indexed
      inputs is checked, and it needs one topic per indexed input plus the
      signature topic. */
  predicate TopicCountOk(inputs: seq<Input>, topics: seq<string>)
  {
    IndexedCount(inputs) == 0 || |topics| == IndexedCount(inputs) + 1
  }

  /** Under a passing count check, the topics after the first are enough
      for the indexed inputs. */
  lemma ArgTopicsSuffice(inputs: seq<Input>, topics: seq<string>)
    requires TopicCountOk(inputs, topics)
    ensures IndexedCount(inputs) <= |ArgTopics(topics)|
  {
  }

  /** A log object; the decoders update its properties in place. */
  class LogObject {
    var id: Option<string>
    var address: Option<Value>
    var blockNumber: Option<Value>
    var transactionIndex: Option<Value>
    var logIndex: Option<Value>
    var data: Option<Value>
    var topics: Option<seq<string>>
    var returnValues: Option<Dict<Value>>
    var event: Option<Value>
    var signature: Option<Value>
    var raw: Option<Raw>

    function State(): LogState
      reads this
    {
      LogState(id, address, blockNumber, transactionIndex, logIndex, data, topics,
               returnValues, event, signature, raw)
    }

    constructor (s: LogState)
      ensures State() == s
    {
      id, address, blockNumber, transactionIndex, logIndex := s.id, s.address, s.blockNumber, s.transactionIndex, s.logIndex;
      data, topics, returnValues, event, signature, raw := s.data, s.topics, s.returnValues, s.event, s.signature, s.raw;
    }
  }

  // ---------------------------------------------------------------------
  // Field conversions

  /** `if (isset($o->f)) $o->f = Bc::hexdec($o->f)`. */
  function HexField(h: Helpers, f: Option<Value>): Option<Value>
  {
    if Isset(f) then Some(h.hexdec(f.value)) else f
  }

  /** `if (isset($o->address)) $o->address = Utils::toChecksumAddress(...)`. */
  function ChecksumField(h: Helpers, f: Option<Value>): Option<Value>
  {
    if Isset(f) then Some(h.toChecksumAddress(f.value)) else f
  }

  /** The four properties both formatters convert. */
  datatype Numbers = Numbers(address: Option<Value>, blockNumber: Option<Value>, transactionIndex: Option<Value>, logIndex: Option<Value>)

  function NumbersOf(s: LogState): Numbers
  {
    Numbers(s.address, s.blockNumber, s.transactionIndex, s.logIndex)
  }

  /** `outputTxFormatter`: the numeric properties from hex and the address
      in checksum case, each only when it is set. */
  function FormatNumbers(n: Numbers, h: Helpers): Numbers
  {
    Numbers(ChecksumField(h, n.address), HexField(h, n.blockNumber), HexField(h, n.transactionIndex), HexField(h, n.logIndex))
  }

  /** The log after `outputLogFormatter`. Both copies of the formatter test
      the fields the same way: `!is_null` on an undefined property and
      `isset` both say "leave it". */
  function FormatLog(s: LogState, id: string, h: Helpers): LogState
  {
    s.(id := Some(id),
       blockNumber := HexField(h, s.blockNumber),
       transactionIndex := HexField(h, s.transactionIndex),
       logIndex := HexField(h, s.logIndex),
       address := ChecksumField(h, s.address))
  }

  /** `outputLogFormatter($log)`: a fresh id, then the numeric fields from
      hex and the address in checksum case, each only when it is set.
      The id generator is random; its value is the parameter `id`. */
  method OutputLogFormatter(log: LogObject, id: string, h: Helpers)
    modifies log
    ensures log.State() == FormatLog(old(log.State()), id, h)
  {
    log.id := Some(id);
    if Isset(log.blockNumber) {
      log.blockNumber := Some(h.hexdec(log.blockNumber.value));
    }
    if Isset(log.transactionIndex) {
      log.transactionIndex := Some(h.hexdec(log.transactionIndex.value));
    }
    if Isset(log.logIndex) {
      log.logIndex := Some(h.hexdec(log.logIndex.value));
    }
    if Isset(log.address) {
      log.address := Some(h.toChecksumAddress(log.address.value));
    }
  }
}
