/** `Web3\Contracts\TxReceipt` (src/Contracts/TxReceipt.php): decodes the
    logs of a transaction receipt against a table of event definitions
    keyed by event signature, updating the receipt and its log objects in
    place. */
module Receipts {
  import opened Php
  import opened Abi
  import opened Logs
  import opened Events

  /** The receipt properties `decode` reads or writes, besides `logs`. */
  datatype TxFields = TxFields(numbers: Numbers, data: Option<Value>, topics: Option<Value>)

  /** A transaction receipt object. */
  class Receipt {
    var address: Option<Value>
    var blockNumber: Option<Value>
    var transactionIndex: Option<Value>
    var logIndex: Option<Value>
    var data: Option<Value>
    var topics: Option<Value>
    var logs: seq<LogObject>

    function Fields(): TxFields
      reads this
    {
      TxFields(Numbers(address, blockNumber, transactionIndex, logIndex), data, topics)
    }

    constructor (f: TxFields, logs: seq<LogObject>)
      ensures Fields() == f && this.logs == logs
    {
      address, blockNumber, transactionIndex, logIndex := f.numbers.address, f.numbers.blockNumber, f.numbers.transactionIndex, f.numbers.logIndex;
      data, topics, this.logs := f.data, f.topics, logs;
    }
  }

  /** The receipt after the first lines of `decode`: `data` defaults to
      `null`, `topics` to `[]`, then `outputTxFormatter`. */
  function PrepareTx(f: TxFields, h: Helpers): TxFields
  {
    TxFields(FormatNumbers(f.numbers, h), Some(OrNull(f.data)), Some(if f.topics.Some? && f.topics.value != Null then f.topics.value else List([])))
  }

  /** `outputTxFormatter($tx)`. */
  method OutputTxFormatter(tx: Receipt, h: Helpers)
    modifies tx
    ensures tx.Fields() == old(tx.Fields()).(numbers := FormatNumbers(old(tx.Fields()).numbers, h))
    ensures tx.logs == old(tx.logs)
  {
    if Isset(tx.blockNumber) {
      tx.blockNumber := Some(h.hexdec(tx.blockNumber.value));
    }
    if Isset(tx.transactionIndex) {
      tx.transactionIndex := Some(h.hexdec(tx.transactionIndex.value));
    }
    if Isset(tx.logIndex) {
      tx.logIndex := Some(h.hexdec(tx.logIndex.value));
    }
    if Isset(tx.address) {
      tx.address := Some(h.toChecksumAddress(tx.address.value));
    }
  }

  /** `outputLogFormatter` does what `outputTxFormatter` does to the same
      four properties, and in addition assigns the id; nothing else
      changes. */
  lemma LogFormatterExtendsTxFormatter(s: LogState, id: string, h: Helpers)
    ensures NumbersOf(FormatLog(s, id, h)) == FormatNumbers(NumbersOf(s), h)
    ensures FormatLog(s, id, h).id == Some(id)
    ensures FormatLog(s, id, h).(id := s.id, address := s.address, blockNumber := s.blockNumber,
                                 transactionIndex := s.transactionIndex, logIndex := s.logIndex) == s
  {
  }

  // ---------------------------------------------------------------------
  // One log

  /** What the mapping closure does to one log. A log whose first topic is
      not a key of the table is returned as is. A known log is formatted,
      then checked and decoded. */
  function ReceiptLogStep(events: Dict<EventDef>, s: LogState, id: string, codec: Codec, h: Helpers): Step
  {
    var signature := FirstTopic(s.topics);
    var key := SignatureKey(signature);
    if key !in Keys(events) then Step(s, None)
    else KnownLogStep(Get(events, key).value, FormatLog(s, id, h), SignatureValue(signature), codec)
  }

  /** `$signature` as it is assigned to the log: the first topic, or `null`. */
  function SignatureValue(signature: Option<string>): Value
  {
    if signature.Some? then Str(signature.value) else Null
  }

  /** The known-log part of the closure on a formatted log: a missing
      `topics` makes `count`/`array_slice` throw, a failed count check
      throws an exception naming the event, and a decoded log keeps its
      top-level `data` and `topics`. */
  function KnownLogStep(def: EventDef, f: LogState, signature: Value, codec: Codec): Step
  {
    if f.topics.None? then Step(f, Some(TopicsNotArray))
    else
      var topics := f.topics.value;
      if !TopicCountOk(def.inputs, topics) then Step(f, Some(EventTopicCountMismatch(def.name)))
      else
        ArgTopicsSuffice(def.inputs, topics);
        match DecodeLogSpec(codec, def.inputs, OrNull(f.data), ArgTopics(topics))
        case Err(e) => Step(f, Some(e))
        case Ok(values) =>
          Step(f.(returnValues := Some(values),
                  event := Some(Str(def.name)),
                  signature := Some(signature),
                  raw := Some(Raw(OrNull(f.data), topics))),
               None)
  }

  /** The assignments that close the decoding of a known log. */
  method AttachReceiptResult(log: LogObject, values: Dict<Value>, name: string, signature: Value, topics: seq<string>)
    modifies log
    ensures log.State() == old(log.State()).(returnValues := Some(values), event := Some(Str(name)),
                                             signature := Some(signature),
                                             raw := Some(Raw(OrNull(old(log.data)), topics)))
  {
    log.returnValues := Some(values);
    log.event := Some(Str(name));
    log.signature := Some(signature);
    log.raw := Some(Raw(OrNull(log.data), topics));
  }

  /** The known-log part of the closure, on a formatted log object. */
  method DecodeKnownLog(def: EventDef, log: LogObject, signature: Value, codec: Codec) returns (err: Option<Error>)
    modifies log
    ensures log.State() == KnownLogStep(def, old(log.State()), signature, codec).state
    ensures err == KnownLogStep(def, old(log.State()), signature, codec).error
  {
    if log.topics.None? {
      return Some(TopicsNotArray);
    }
    var topics := log.topics.value;
    var indexedInputs := IndexedCount(def.inputs);
    if indexedInputs > 0 && |topics| != indexedInputs + 1 {
      return Some(EventTopicCountMismatch(def.name));
    }
    ArgTopicsSuffice(def.inputs, topics);
    var returnValues := DecodeLog(codec, def.inputs, OrNull(log.data), ArgTopics(topics));
    if returnValues.Err? {
      return Some(returnValues.error);
    }
    AttachReceiptResult(log, returnValues.value, def.name, signature, topics);
    return None;
  }

  /** The mapping closure of `decode` on one log object. */
  method DecodeReceiptLog(events: Dict<EventDef>, log: LogObject, id: string, codec: Codec, h: Helpers)
    returns (err: Option<Error>)
    modifies log
    ensures log.State() == ReceiptLogStep(events, old(log.State()), id, codec, h).state
    ensures err == ReceiptLogStep(events, old(log.State()), id, codec, h).error
  {
    var signature := FirstTopic(log.topics);
    if SignatureKey(signature) !in Keys(events) {
      return None;
    }
    var def := Get(events, SignatureKey(signature)).value;
    OutputLogFormatter(log, id, h);
    err := DecodeKnownLog(def, log, SignatureValue(signature), codec);
  }

  // ---------------------------------------------------------------------
  // The whole receipt

  /** The states of a sequence of log objects. */
  function States(logs: seq<LogObject>): (r: seq<LogState>)
    reads logs
    ensures |r| == |logs|
    ensures forall k :: 0 <= k < |logs| ==> r[k] == logs[k].State()
  {
    if logs == [] then [] else [logs[0].State()] + States(logs[1..])
  }

  /** Whether the decoding of log `k` throws. */
  predicate Fails(events: Dict<EventDef>, ss: seq<LogState>, codec: Codec, h: Helpers, idOf: nat -> string, k: nat)
    requires k < |ss|
  {
    ReceiptLogStep(events, ss[k], idOf(k), codec, h).error.Some?
  }

  /** The position of the first log, from `from` on, whose decoding throws
      (the length when none does). The map is eager, so that exception
      ends the receipt's decoding. */
  function FirstFailure(events: Dict<EventDef>, ss: seq<LogState>, codec: Codec, h: Helpers, idOf: nat -> string, from: nat): (f: nat)
    requires from <= |ss|
    ensures from <= f <= |ss|
    ensures forall k :: from <= k < f ==> !Fails(events, ss, codec, h, idOf, k)
    ensures f < |ss| ==> Fails(events, ss, codec, h, idOf, f)
    decreases |ss| - from
  {
    if from == |ss| then from
    else if Fails(events, ss, codec, h, idOf, from) then from
    else FirstFailure(events, ss, codec, h, idOf, from + 1)
  }

  /** Past a log that does not throw, the first failure is further on. */
  lemma FirstFailurePast(events: Dict<EventDef>, ss: seq<LogState>, codec: Codec, h: Helpers, idOf: nat -> string, i: nat)
    requires i < |ss| && i <= FirstFailure(events, ss, codec, h, idOf, 0)
    requires !Fails(events, ss, codec, h, idOf, i)
    ensures i + 1 <= FirstFailure(events, ss, codec, h, idOf, 0)
  {
  }

  /** A log that throws, with none before it throwing, is the first failure. */
  lemma FirstFailureAt(events: Dict<EventDef>, ss: seq<LogState>, codec: Codec, h: Helpers, idOf: nat -> string, i: nat)
    requires i < |ss| && i <= FirstFailure(events, ss, codec, h, idOf, 0)
    requires Fails(events, ss, codec, h, idOf, i)
    ensures i == FirstFailure(events, ss, codec, h, idOf, 0)
  {
  }

  /** Log `k` after the map: decoded when no earlier log threw, untouched
      otherwise. */
  function DecodedLog(events: Dict<EventDef>, ss: seq<LogState>, codec: Codec, h: Helpers, idOf: nat -> string, k: nat): LogState
    requires k < |ss|
  {
    if k <= FirstFailure(events, ss, codec, h, idOf, 0) then ReceiptLogStep(events, ss[k], idOf(k), codec, h).state else ss[k]
  }

  /** The exception the map ends with: the first log's that throws. */
  function ReceiptError(events: Dict<EventDef>, ss: seq<LogState>, codec: Codec, h: Helpers, idOf: nat -> string): Option<Error>
  {
    var f := FirstFailure(events, ss, codec, h, idOf, 0);
    if f < |ss| then ReceiptLogStep(events, ss[f], idOf(f), codec, h).error else None
  }

  /** The first lines of `decode` on the receipt object. */
  method PrepareReceipt(tx: Receipt, h: Helpers)
    modifies tx
    ensures tx.Fields() == PrepareTx(old(tx.Fields()), h)
    ensures tx.logs == old(tx.logs)
  {
    tx.data := Some(OrNull(tx.data));
    tx.topics := Some(if tx.topics.Some? && tx.topics.value != Null then tx.topics.value else List([]));
    OutputTxFormatter(tx, h);
  }

  /** The map over the log objects: each is decoded in turn, and the first
      exception ends the map. */
  method DecodeLogObjects(logs: seq<LogObject>, events: Dict<EventDef>, codec: Codec, h: Helpers, idOf: nat -> string)
    returns (err: Option<Error>)
    requires forall i, j :: 0 <= i < j < |logs| ==> logs[i] != logs[j]
    modifies logs
    ensures err == ReceiptError(events, old(States(logs)), codec, h, idOf)
    ensures forall k :: 0 <= k < |logs| ==> logs[k].State() == DecodedLog(events, old(States(logs)), codec, h, idOf, k)
  {
    ghost var ss := States(logs);
    for i := 0 to |logs|
      invariant i <= FirstFailure(events, ss, codec, h, idOf, 0)
      invariant forall k :: 0 <= k < i ==> logs[k].State() == DecodedLog(events, ss, codec, h, idOf, k)
      invariant forall k :: i <= k < |logs| ==> logs[k].State() == ss[k]
    {
      err := DecodeReceiptLog(events, logs[i], idOf(i), codec, h);
      if err.Some? {
        FirstFailureAt(events, ss, codec, h, idOf, i);
        forall k | i < k < |logs|
          ensures logs[k].State() == DecodedLog(events, ss, codec, h, idOf, k)
        {
          assert logs[k].State() == ss[k];
        }
        return;
      }
      FirstFailurePast(events, ss, codec, h, idOf, i);
    }
    err := None;
  }

  /** `decode()`: defaults and formats the receipt, then decodes its logs in
      order, in place. Log `k` gets the id `idOf(k)`. An exception stops the
      map: the logs before it and the failing one keep their changes, the
      later ones are untouched. The log objects must be distinct. */
  method Decode(tx: Receipt, events: Dict<EventDef>, codec: Codec, h: Helpers, idOf: nat -> string)
    returns (err: Option<Error>)
    requires forall i, j :: 0 <= i < j < |tx.logs| ==> tx.logs[i] != tx.logs[j]
    modifies tx, tx.logs
    ensures tx.logs == old(tx.logs)
    ensures tx.Fields() == PrepareTx(old(tx.Fields()), h)
    ensures err == ReceiptError(events, old(States(tx.logs)), codec, h, idOf)
    ensures forall k :: 0 <= k < |tx.logs| ==> tx.logs[k].State() == DecodedLog(events, old(States(tx.logs)), codec, h, idOf, k)
  {
    PrepareReceipt(tx, h);
    err := DecodeLogObjects(tx.logs, events, codec, h, idOf);
  }

  // ---------------------------------------------------------------------
  // Properties of decode

  /** A log whose first topic is not a key of the table is passed through
      as is: not formatted, and given no decoded properties. */
  lemma UnknownLogPassesThrough(events: Dict<EventDef>, s: LogState, id: string, codec: Codec, h: Helpers)
    requires SignatureKey(FirstTopic(s.topics)) !in Keys(events)
    ensures ReceiptLogStep(events, s, id, codec, h) == Step(s, None)
  {
  }

  /** For a known log: a missing `topics` throws a type error; otherwise
      the exception naming the event is thrown exactly when the count
      check fails. A failing known log is left formatted. */
  lemma KnownLogErrors(events: Dict<EventDef>, s: LogState, id: string, codec: Codec, h: Helpers)
    requires SignatureKey(FirstTopic(s.topics)) in Keys(events)
    ensures var def := Get(events, SignatureKey(FirstTopic(s.topics))).value;
      var st := ReceiptLogStep(events, s, id, codec, h);
      && (s.topics.None? ==> st.error == Some(TopicsNotArray))
      && (s.topics.Some? ==>
            (st.error == Some(EventTopicCountMismatch(def.name)) <==> !TopicCountOk(def.inputs, s.topics.value)))
      && (st.error.Some? ==> st.state == FormatLog(s, id, h))
  {
    var def := Get(events, SignatureKey(FirstTopic(s.topics))).value;
    if s.topics.Some? && TopicCountOk(def.inputs, s.topics.value) {
      ArgTopicsSuffice(def.inputs, s.topics.value);
      DecodeLogFailure(codec, def.inputs, OrNull(s.data), ArgTopics(s.topics.value));
    }
  }

  /** A decoded known log: a fresh id and formatted numbers, the decoded
      parameters, the event's name, its first topic as `signature`, its
      data and topics under `raw`, and its top-level `data` and `topics`
      kept. */
  lemma KnownLogResult(events: Dict<EventDef>, s: LogState, id: string, codec: Codec, h: Helpers)
    requires SignatureKey(FirstTopic(s.topics)) in Keys(events)
    requires ReceiptLogStep(events, s, id, codec, h).error.None?
    ensures var def := Get(events, SignatureKey(FirstTopic(s.topics))).value;
      var r := ReceiptLogStep(events, s, id, codec, h).state;
      && s.topics.Some?
      && IndexedCount(def.inputs) <= |ArgTopics(s.topics.value)|
      && DecodeLogSpec(codec, def.inputs, OrNull(s.data), ArgTopics(s.topics.value)).Ok?
      && r.returnValues == Some(DecodeLogSpec(codec, def.inputs, OrNull(s.data), ArgTopics(s.topics.value)).value)
      && r.event == Some(Str(def.name))
      && r.signature == Some(SignatureValue(FirstTopic(s.topics)))
      && r.raw == Some(Raw(OrNull(s.data), s.topics.value))
      && r.data == s.data && r.topics == s.topics
      && r.id == Some(id)
      && NumbersOf(r) == FormatNumbers(NumbersOf(s), h)
  {
    var def := Get(events, SignatureKey(FirstTopic(s.topics))).value;
    KnownLogErrors(events, s, id, codec, h);
    ArgTopicsSuffice(def.inputs, s.topics.value);
  }

  /** The receipt decoder and an `ALLEVENTS` query over the same table agree
      on a log whose first topic is a known signature: they fail under the
      same count check, succeed together, and then give the same decoded
      parameters, event, signature and raw data. Only the receipt keeps
      the top-level `data` and `topics`. */
  lemma ReceiptAgreesWithAllEvents(contract: Contract, options: Options, events: Dict<EventDef>,
                                   s: LogState, id: string, codec: Codec, h: Helpers)
    requires s.topics.Some? && |s.topics.value| > 0 && s.topics.value[0] in Keys(events)
    ensures var q := EventQuery(contract, options, AllEvents(events));
      var ev := DecodeEventLog(q, s, id, codec, h);
      var rc := ReceiptLogStep(events, s, id, codec, h);
      var def := Get(events, s.topics.value[0]).value;
      && (ev.error == Some(TopicCountMismatch) <==> rc.error == Some(EventTopicCountMismatch(def.name)))
      && (ev.error.None? <==> rc.error.None?)
      && (ev.error.None? ==>
            && ev.state.returnValues == rc.state.returnValues
            && ev.state.event == rc.state.event
            && ev.state.signature == rc.state.signature
            && ev.state.raw == rc.state.raw
            && ev.state.data.None? && rc.state.data == s.data
            && ev.state.topics.None? && rc.state.topics == s.topics)
  {
    var q := EventQuery(contract, options, AllEvents(events));
    DecodeEventLogErrors(q, s, id, codec, h);
    KnownLogErrors(events, s, id, codec, h);
    if DecodeEventLog(q, s, id, codec, h).error.None? {
      DecodeEventLogResult(q, s, id, codec, h);
    }
    if ReceiptLogStep(events, s, id, codec, h).error.None? {
      KnownLogResult(events, s, id, codec, h);
    }
  }

  /** The map decodes every log exactly when no log's decoding throws, and
      then every log holds its own decoding. */
  lemma ReceiptWithoutError(events: Dict<EventDef>, ss: seq<LogState>, codec: Codec, h: Helpers, idOf: nat -> string)
    ensures ReceiptError(events, ss, codec, h, idOf).None? <==> forall k :: 0 <= k < |ss| ==> !Fails(events, ss, codec, h, idOf, k)
    ensures ReceiptError(events, ss, codec, h, idOf).None? ==>
      forall k :: 0 <= k < |ss| ==> DecodedLog(events, ss, codec, h, idOf, k) == ReceiptLogStep(events, ss[k], idOf(k), codec, h).state
  {
    var f := FirstFailure(events, ss, codec, h, idOf, 0);
    if f < |ss| {
      assert Fails(events, ss, codec, h, idOf, f);
    }
  }

  /** A log the table does not know leaves the receipt decode as it came,
      whether or not an earlier log threw. */
  lemma UnknownLogUntouched(events: Dict<EventDef>, ss: seq<LogState>, codec: Codec, h: Helpers, idOf: nat -> string, k: nat)
    requires k < |ss| && SignatureKey(FirstTopic(ss[k].topics)) !in Keys(events)
    ensures DecodedLog(events, ss, codec, h, idOf, k) == ss[k]
  {
    UnknownLogPassesThrough(events, ss[k], idOf(k), codec, h);
  }

  /** When the map ends with an exception, the log that threw is a known
      log, and a count-check exception names that log's event. */
  lemma ReceiptErrorSource(events: Dict<EventDef>, ss: seq<LogState>, codec: Codec, h: Helpers, idOf: nat -> string)
    requires ReceiptError(events, ss, codec, h, idOf).Some?
    ensures var f := FirstFailure(events, ss, codec, h, idOf, 0);
      && f < |ss|
      && SignatureKey(FirstTopic(ss[f].topics)) in Keys(events)
      && (ss[f].topics.Some? ==>
            (ReceiptError(events, ss, codec, h, idOf)
               == Some(EventTopicCountMismatch(Get(events, SignatureKey(FirstTopic(ss[f].topics))).value.name))
             <==> !TopicCountOk(Get(events, SignatureKey(FirstTopic(ss[f].topics))).value.inputs, ss[f].topics.value)))
  {
    var f := FirstFailure(events, ss, codec, h, idOf, 0);
    if SignatureKey(FirstTopic(ss[f].topics)) in Keys(events) {
      KnownLogErrors(events, ss[f], idOf(f), codec, h);
    }
  }
}
