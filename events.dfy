/** `Web3\Contracts\Event` (src/Contracts/Event.php): an event query over a
    contract. Its constructor resolves the event and its signature,
    `_encodeABI` turns the query options into an `eth_getLogs` filter and
    `_decodeABI` decodes one returned log in place. */
module Events {
  import opened Php
  import opened Abi
  import opened Logs

  /** What the query reads from the contract: its event table (for a
      contract built from an ABI, keyed by event signature) and the address
      `getToAddress()` returns. */
  datatype Contract = Contract(events: Dict<EventDef>, toAddress: Value)

  /** The query options. `None` is an option that is missing; a `filter`
      that is missing or `null` reads as the empty array. */
  datatype Options = Options(
    fromBlock: Option<Value>,
    toBlock: Option<Value>,
    filter: Option<Dict<Value>>,
    topics: Option<Value>)

  /** The event the query is for: every event of the contract
      (`ALLEVENTS`, the table kept as given) or one named event together
      with its signature. */
  datatype Target = AllEvents(signatures: Dict<EventDef>) | Named(event: EventDef, signature: string)

  /** An `Event` object. Its properties are set once, by the constructor. */
  datatype EventQuery = EventQuery(contract: Contract, options: Options, target: Target)

  const AllEventsName := "ALLEVENTS"

  // ---------------------------------------------------------------------
  // Constructor

  /** The position of the first event called `name`, as Laravel's
      `collect(...)->first(fn ($ev) => $ev['name'] === $name)`. */
  function FirstNamed(defs: seq<EventDef>, name: string): (r: Option<nat>)
    ensures r.None? <==> forall i :: 0 <= i < |defs| ==> defs[i].name != name
    ensures r.Some? ==> r.value < |defs| && defs[r.value].name == name
    ensures r.Some? ==> forall i :: 0 <= i < r.value ==> defs[i].name != name
  {
    if defs == [] then None
    else if defs[0].name == name then Some(0)
    else match FirstNamed(defs[1..], name)
      case None => None
      case Some(i) => Some(i + 1)
  }

  /** `new Event($contract, $eventName, $options)`. */
  function NewEvent(contract: Contract, eventName: string, options: Options, codec: Codec): Result<EventQuery, Error>
  {
    if eventName == AllEventsName then Ok(EventQuery(contract, options, AllEvents(contract.events)))
    else match FirstNamed(Values(contract.events), eventName)
      case None => Err(EventNotFound)
      case Some(i) =>
        var e := Values(contract.events)[i];
        Ok(EventQuery(contract, options, Named(e, codec.encodeEventSignature(e))))
  }

  /** `ALLEVENTS` keeps the contract's whole table. Any other name must be
      the name of one of the contract's events, and then the query is for
      the first such event, with the signature the codec computes for it. */
  lemma NewEventSpec(contract: Contract, eventName: string, options: Options, codec: Codec)
    ensures eventName == AllEventsName ==>
      NewEvent(contract, eventName, options, codec) == Ok(EventQuery(contract, options, AllEvents(contract.events)))
    ensures eventName != AllEventsName ==>
      (NewEvent(contract, eventName, options, codec).Err? <==>
       forall i :: 0 <= i < |contract.events| ==> contract.events[i].1.name != eventName)
    ensures NewEvent(contract, eventName, options, codec).Err? ==>
      NewEvent(contract, eventName, options, codec).error == EventNotFound
    ensures eventName != AllEventsName && NewEvent(contract, eventName, options, codec).Ok? ==>
      exists i :: 0 <= i < |contract.events| &&
        (forall j :: 0 <= j < i ==> contract.events[j].1.name != eventName) &&
        NewEvent(contract, eventName, options, codec).value ==
          EventQuery(contract, options, Named(contract.events[i].1, codec.encodeEventSignature(contract.events[i].1)))
  {
    var defs := Values(contract.events);
    if eventName != AllEventsName {
      var r := FirstNamed(defs, eventName);
      if r.Some? {
        var i := r.value;
        assert forall j :: 0 <= j < i ==> contract.events[j].1.name != eventName by {
          forall j | 0 <= j < i ensures contract.events[j].1.name != eventName {
            assert defs[j] == contract.events[j].1;
          }
        }
      } else {
        forall i | 0 <= i < |contract.events| ensures contract.events[i].1.name != eventName {
          assert defs[i] == contract.events[i].1;
        }
      }
    }
  }

  // ---------------------------------------------------------------------
  // _encodeABI

  /** `$options['filter'] ?? []`. */
  function FilterOf(o: Options): Dict<Value>
  {
    if o.filter.Some? then o.filter.value else []
  }

  /** `"0"` and `""` are the falsy strings. */
  predicate StrTruthy(s: string)
  {
    Truthy(Str(s))
  }

  /** The topic slot of one indexed input: a wildcard when its filter value
      is missing or falsy, an OR-list of encodings for a list, and the
      encoding of the value otherwise. */
  function TopicSlot(codec: Codec, filter: Dict<Value>, x: Input): Value
  {
    var v := OrNull(Get(filter, x.name));
    if !Truthy(v) then Null
    else if v.List? then List(seq(|v.items|, k requires 0 <= k < |v.items| => Str(codec.encodeParameter(x.typ, v.items[k]))))
    else Str(codec.encodeParameter(x.typ, v))
  }

  /** The `filter`/`map` pipeline over the inputs: one slot per indexed
      input, in declaration order. */
  function IndexedTopics(codec: Codec, inputs: seq<Input>, filter: Dict<Value>): (r: seq<Value>)
    ensures |r| == IndexedCount(inputs)
    ensures forall k :: 0 <= k < |r| ==> r[k] == TopicSlot(codec, filter, IndexedInputs(inputs)[k])
    decreases |inputs|
  {
    if inputs == [] then []
    else
      var n := |inputs| - 1;
      IndexedTopics(codec, inputs[..n], filter) + (if inputs[n].indexed then [TopicSlot(codec, filter, inputs[n])] else [])
  }

  /** How many topics the signature takes: one, unless the event is
      anonymous or the signature is falsy. */
  function SignatureSlots(e: EventDef, signature: string): nat
  {
    if StrTruthy(signature) && !e.anonymous then 1 else 0
  }

  /** The topics of a named event: its signature unless the event is
      anonymous (or the signature is falsy), then the indexed slots. */
  function NamedTopics(codec: Codec, e: EventDef, signature: string, filter: Dict<Value>): seq<Value>
  {
    (if SignatureSlots(e, signature) == 1 then [Str(signature)] else [])
      + IndexedTopics(codec, e.inputs, filter)
  }

  /** The `eth_getLogs` filter as a record: each key is present or not. */
  datatype Filter = Filter(fromBlock: Option<Value>, toBlock: Option<Value>, address: Option<Value>, topics: Option<Value>)

  /** `fromBlock`: the formatted option, when it is set. */
  function FromBlockOf(o: Options, h: Helpers): Option<Value>
  {
    if Isset(o.fromBlock) then Some(h.formatBlock(o.fromBlock.value)) else None
  }

  /** `toBlock`: the formatted option, when it is set, except that a
      subscription drops a formatted value that is not `null`. */
  function ToBlockOf(o: Options, subscribe: bool, h: Helpers): Option<Value>
  {
    if !Isset(o.toBlock) then None
    else if subscribe && h.formatBlock(o.toBlock.value) != Null then None
    else Some(h.formatBlock(o.toBlock.value))
  }

  /** `address`: the contract's to-address, when it is truthy. */
  function AddressOf(c: Contract): Option<Value>
  {
    if Truthy(c.toAddress) then Some(c.toAddress) else None
  }

  /** `topics`: an explicit list from the options as given; otherwise none
      for `ALLEVENTS` and the derived slots for a named event. */
  function TopicsOf(q: EventQuery, codec: Codec): Option<Value>
  {
    var o := q.options;
    if o.topics.Some? && o.topics.value.List? then o.topics
    else match q.target
      case AllEvents(_) => None
      case Named(e, signature) => Some(List(NamedTopics(codec, e, signature, FilterOf(o))))
  }

  /** Which keys `_encodeABI($subscribe)` sets, and to what. */
  function FilterFor(q: EventQuery, subscribe: bool, codec: Codec, h: Helpers): Filter
  {
    Filter(FromBlockOf(q.options, h), ToBlockOf(q.options, subscribe, h), AddressOf(q.contract), TopicsOf(q, codec))
  }

  /** A key with its value, when the value is present. */
  function Entry(k: string, v: Option<Value>): Dict<Value>
  {
    if v.Some? then [(k, v.value)] else []
  }

  /** The filter as the PHP array `_encodeABI` returns, keys in the order
      they are written. */
  function FilterArray(f: Filter): Dict<Value>
  {
    Entry("fromBlock", f.fromBlock) + Entry("toBlock", f.toBlock) + Entry("address", f.address) + Entry("topics", f.topics)
  }

  /** Each key of the filter array holds the record's value for it. */
  lemma FilterArrayGet(f: Filter)
    ensures Get(FilterArray(f), "fromBlock") == f.fromBlock
    ensures Get(FilterArray(f), "toBlock") == f.toBlock
    ensures Get(FilterArray(f), "address") == f.address
    ensures Get(FilterArray(f), "topics") == f.topics
  {
    var a := Entry("fromBlock", f.fromBlock);
    var b := a + Entry("toBlock", f.toBlock);
    var c := b + Entry("address", f.address);
    assert Keys(a) == if f.fromBlock.Some? then ["fromBlock"] else [];
    GetEntry(a, "toBlock", f.toBlock, "fromBlock");
    GetEntry(a, "toBlock", f.toBlock, "toBlock");
    KeysEntry(a, "toBlock", f.toBlock);
    GetEntry(b, "address", f.address, "fromBlock");
    GetEntry(b, "address", f.address, "toBlock");
    GetEntry(b, "address", f.address, "address");
    KeysEntry(b, "address", f.address);
    GetEntry(c, "topics", f.topics, "fromBlock");
    GetEntry(c, "topics", f.topics, "toBlock");
    GetEntry(c, "topics", f.topics, "address");
    GetEntry(c, "topics", f.topics, "topics");
  }

  /** Appending an optional entry: a key already present keeps its value,
      the appended key reads the entry's value. */
  lemma GetEntry(a: Dict<Value>, e: string, v: Option<Value>, k: string)
    ensures Get(a + Entry(e, v), k) == if k !in Keys(a) && e == k then v else Get(a, k)
  {
    if v.Some? {
      GetSnoc(a, (e, v.value), k);
    } else {
      assert a + [] == a;
    }
  }

  lemma KeysEntry(a: Dict<Value>, e: string, v: Option<Value>)
    ensures Keys(a + Entry(e, v)) == Keys(a) + (if v.Some? then [e] else [])
  {
    if v.Some? {
      KeysSnoc(a, (e, v.value));
    } else {
      assert a + [] == a;
    }
  }

  lemma {:induction false} GetSnoc(a: Dict<Value>, p: (string, Value), k: string)
    ensures k in Keys(a) ==> Get(a + [p], k) == Get(a, k)
    ensures k !in Keys(a) && p.0 == k ==> Get(a + [p], k) == Some(p.1)
    ensures k !in Keys(a) && p.0 != k ==> Get(a + [p], k) == None
    decreases |a|
  {
    if a != [] {
      SnocTail(a, p);
      assert Keys(a) == [a[0].0] + Keys(a[1..]);
      GetSnoc(a[1..], p, k);
    }
  }

  /** Assigning a key the array does not hold yet appends it. */
  lemma PutAbsent(d: Dict<Value>, k: string, v: Value)
    requires k !in Keys(d)
    ensures Put(d, k, v) == d + [(k, v)]
    ensures Keys(d + [(k, v)]) == Keys(d) + [k]
  {
    forall i | 0 <= i < |d| ensures d[i].0 != k {
      assert Keys(d)[i] == d[i].0;
    }
    PutNew(d, k, v);
    KeysSnoc(d, (k, v));
  }

  /** `$results[$k] = $v` for a key `$results` does not hold yet. */
  method AssignNew(d: Dict<Value>, k: string, v: Value) returns (r: Dict<Value>)
    requires k !in Keys(d)
    ensures r == d + [(k, v)]
    ensures Keys(r) == Keys(d) + [k]
  {
    PutAbsent(d, k, v);
    r := Put(d, k, v);
  }

  /** The first lines of `_encodeABI`: `fromBlock`, then `toBlock`, which a
      subscription unsets again when it is set. */
  method BlockKeys(options: Options, subscribe: bool, h: Helpers) returns (results: Dict<Value>)
    ensures results == Entry("fromBlock", FromBlockOf(options, h)) + Entry("toBlock", ToBlockOf(options, subscribe, h))
    ensures forall k :: k in Keys(results) ==> k == "fromBlock" || k == "toBlock"
  {
    results := [];
    if Isset(options.fromBlock) {
      results := AssignNew(results, "fromBlock", h.formatBlock(options.fromBlock.value));
    }
    ghost var a := results;
    assert a == Entry("fromBlock", FromBlockOf(options, h));
    assert "toBlock" !in Keys(a);
    if Isset(options.toBlock) {
      results := AssignNew(results, "toBlock", h.formatBlock(options.toBlock.value));
    }
    ghost var withTo := results;
    if subscribe && Isset(Get(results, "toBlock")) {
      RemoveAppended(a, "toBlock", h.formatBlock(options.toBlock.value));
      results := Remove(results, "toBlock");
    }
    ToBlockStage(a, withTo, results, options, subscribe, h);
  }

  /** `_encodeABI($subscribe)`: builds the filter array key by key. */
  method EncodeABI(q: EventQuery, subscribe: bool, codec: Codec, h: Helpers) returns (results: Dict<Value>)
    ensures results == FilterArray(FilterFor(q, subscribe, codec, h))
  {
    var options := q.options;
    var filter := FilterOf(options);
    results := BlockKeys(options, subscribe, h);
    ghost var b := results;
    assert "address" !in Keys(b) && "topics" !in Keys(b);
    if Truthy(q.contract.toAddress) {
      results := AssignNew(results, "address", q.contract.toAddress);
    }
    EntryStage(b, results, "address", AddressOf(q.contract));
    assert "topics" !in Keys(results);
    if options.topics.Some? && options.topics.value.List? {
      results := AssignNew(results, "topics", options.topics.value);
      return;
    }
    var topics: seq<Value> := [];
    if q.target.AllEvents? {
      EntryStage(results, results, "topics", None);
      return;
    }
    var event, signature := q.target.event, q.target.signature;
    if StrTruthy(signature) && !event.anonymous {
      topics := topics + [Str(signature)];
    }
    var indexedTopics := IndexedTopics(codec, event.inputs, filter);
    topics := topics + indexedTopics;
    assert topics == NamedTopics(codec, event, signature, filter);
    results := AssignNew(results, "topics", List(topics));
  }

  /** After the `toBlock` assignment and the subscription's `unset`. */
  lemma ToBlockStage(a: Dict<Value>, withTo: Dict<Value>, results: Dict<Value>, o: Options, subscribe: bool, h: Helpers)
    requires "toBlock" !in Keys(a)
    requires withTo == if Isset(o.toBlock) then a + [("toBlock", h.formatBlock(o.toBlock.value))] else a
    requires results == if subscribe && Isset(Get(withTo, "toBlock")) then a else withTo
    ensures results == a + Entry("toBlock", ToBlockOf(o, subscribe, h))
    ensures Keys(results) == Keys(a) + (if ToBlockOf(o, subscribe, h).Some? then ["toBlock"] else [])
  {
    KeysEntry(a, "toBlock", ToBlockOf(o, subscribe, h));
    if Isset(o.toBlock) {
      GetSnoc(a, ("toBlock", h.formatBlock(o.toBlock.value)), "toBlock");
    } else {
      assert a + [] == a;
      assert Get(a, "toBlock") == None;
    }
  }

  /** After an optional assignment of a key the array does not hold. */
  lemma EntryStage(b: Dict<Value>, results: Dict<Value>, k: string, v: Option<Value>)
    requires results == if v.Some? then b + [(k, v.value)] else b
    ensures results == b + Entry(k, v)
    ensures Keys(results) == Keys(b) + (if v.Some? then [k] else [])
  {
    KeysEntry(b, k, v);
    if v.None? {
      assert b + [] == b;
    }
  }

  // ---------------------------------------------------------------------
  // _decodeABI

  /** The definition a log is decoded with: the query's event, or under
      `ALLEVENTS` the table entry keyed by the log's first topic (`None`
      when there is none; PHP then reads `null` with warnings). */
  function ResolveEvent(target: Target, topics: seq<string>): Option<EventDef>
  {
    match target
    case Named(e, _) => Some(e)
    case AllEvents(signatures) => Get(signatures, SignatureKey(FirstTopic(Some(topics))))
  }

  /** `$event['inputs']`, empty when there is no definition (`foreach` over
      `null` runs no iteration). */
  function InputsOf(def: Option<EventDef>): seq<Input>
  {
    if def.Some? then def.value.inputs else []
  }

  /** `$event['name']`, `null` when there is no definition. */
  function NameOf(def: Option<EventDef>): Value
  {
    if def.Some? then Str(def.value.name) else Null
  }

  /** The first lines of `_decodeABI`: `data` defaults to `null`,
      `topics` to `[]`, then the log is formatted. */
  function PrepareLog(s: LogState, id: string, h: Helpers): (r: LogState)
    ensures r.data.Some? && r.topics.Some?
  {
    FormatLog(s.(data := Some(OrNull(s.data)), topics := Some(TopicsOr(s.topics))), id, h)
  }

  /** The rest of `_decodeABI` on a prepared log: resolve the event, check
      the topic count, decode the parameters from the topics after the
      first, then attach the results and move `data` and `topics` under
      `raw`. */
  function DecodePrepared(q: EventQuery, p: LogState, codec: Codec): Step
    requires p.data.Some? && p.topics.Some?
  {
    var data, topics := p.data.value, p.topics.value;
    var def := ResolveEvent(q.target, topics);
    var inputs := InputsOf(def);
    if !TopicCountOk(inputs, topics) then Step(p, Some(TopicCountMismatch))
    else
      ArgTopicsSuffice(inputs, topics);
      match DecodeLogSpec(codec, inputs, data, ArgTopics(topics))
      case Err(e) => Step(p, Some(e))
      case Ok(values) =>
        Step(p.(returnValues := Some(values),
                event := Some(NameOf(def)),
                signature := Some(if |topics| > 0 then Str(topics[0]) else Null),
                raw := Some(Raw(data, topics)),
                data := None,
                topics := None),
             None)
  }

  /** What `_decodeABI` does to a log. */
  function DecodeEventLog(q: EventQuery, s: LogState, id: string, codec: Codec, h: Helpers): Step
  {
    DecodePrepared(q, PrepareLog(s, id, h), codec)
  }

  /** The first lines of `_decodeABI` on the log object. */
  method PrepareLogObject(log: LogObject, id: string, h: Helpers)
    modifies log
    ensures log.State() == PrepareLog(old(log.State()), id, h)
  {
    log.data := Some(OrNull(log.data));
    log.topics := Some(TopicsOr(log.topics));
    OutputLogFormatter(log, id, h);
  }

  /** The assignments that close a successful `_decodeABI`. */
  method AttachResult(log: LogObject, values: Dict<Value>, name: Value, topics: seq<string>)
    requires log.data.Some?
    modifies log
    ensures log.State() == old(log.State()).(returnValues := Some(values), event := Some(name),
                                             signature := Some(if |topics| > 0 then Str(topics[0]) else Null),
                                             raw := Some(Raw(old(log.data.value), topics)),
                                             data := None, topics := None)
  {
    log.returnValues := Some(values);
    log.event := Some(name);
    log.signature := Some(if |topics| > 0 then Str(topics[0]) else Null);
    log.raw := Some(Raw(log.data.value, topics));
    log.data := None;
    log.topics := None;
  }

  /** The rest of `_decodeABI` on a prepared log object. */
  method DecodePreparedLog(q: EventQuery, log: LogObject, codec: Codec) returns (err: Option<Error>)
    requires log.data.Some? && log.topics.Some?
    modifies log
    ensures log.State() == DecodePrepared(q, old(log.State()), codec).state
    ensures err == DecodePrepared(q, old(log.State()), codec).error
  {
    var topics := log.topics.value;
    var event := ResolveEvent(q.target, topics);
    var inputs := InputsOf(event);
    var indexedInputs := IndexedCount(inputs);
    if indexedInputs > 0 && |topics| != indexedInputs + 1 {
      return Some(TopicCountMismatch);
    }
    var argTopics := ArgTopics(topics);
    var returnValues := DecodeLog(codec, inputs, log.data.value, argTopics);
    if returnValues.Err? {
      return Some(returnValues.error);
    }
    AttachResult(log, returnValues.value, NameOf(event), topics);
    return None;
  }

  /** `_decodeABI($log)`: decodes the log object in place. An exception
      leaves the log with the changes made before it. */
  method DecodeABI(q: EventQuery, log: LogObject, id: string, codec: Codec, h: Helpers) returns (err: Option<Error>)
    modifies log
    ensures log.State() == DecodeEventLog(q, old(log.State()), id, codec, h).state
    ensures err == DecodeEventLog(q, old(log.State()), id, codec, h).error
  {
    PrepareLogObject(log, id, h);
    err := DecodePreparedLog(q, log, codec);
  }

  // ---------------------------------------------------------------------
  // Properties of _encodeABI

  /** Which keys the filter carries: `fromBlock` when the option is set,
      `toBlock` when the option is set and not dropped by a subscription,
      `address` exactly when the contract has a to-address, and `topics`
      when the options give a list (returned verbatim) or the query is for
      a named event; an `ALLEVENTS` query without explicit topics has no
      `topics` key. */
  lemma EncodeABIKeys(q: EventQuery, subscribe: bool, codec: Codec, h: Helpers)
    ensures var r := FilterArray(FilterFor(q, subscribe, codec, h));
      && (Get(r, "fromBlock").Some? <==> Isset(q.options.fromBlock))
      && (Isset(q.options.fromBlock) ==> Get(r, "fromBlock") == Some(h.formatBlock(q.options.fromBlock.value)))
      && (Get(r, "toBlock").Some? <==>
            Isset(q.options.toBlock) && !(subscribe && h.formatBlock(q.options.toBlock.value) != Null))
      && (!subscribe && Isset(q.options.toBlock) ==> Get(r, "toBlock") == Some(h.formatBlock(q.options.toBlock.value)))
      && (Get(r, "address").Some? <==> Truthy(q.contract.toAddress))
      && (Get(r, "address").Some? ==> Get(r, "address") == Some(q.contract.toAddress))
      && (Get(r, "topics").Some? <==> (q.options.topics.Some? && q.options.topics.value.List?) || q.target.Named?)
      && (q.options.topics.Some? && q.options.topics.value.List? ==> Get(r, "topics") == q.options.topics)
  {
    FilterArrayGet(FilterFor(q, subscribe, codec, h));
  }

  /** The derived topics of a named event: the signature first unless the
      event is anonymous (or the signature is falsy), then exactly one
      slot per indexed input. */
  lemma NamedTopicsLength(codec: Codec, e: EventDef, signature: string, filter: Dict<Value>)
    ensures |NamedTopics(codec, e, signature, filter)| == SignatureSlots(e, signature) + IndexedCount(e.inputs)
    ensures SignatureSlots(e, signature) == 1 ==> NamedTopics(codec, e, signature, filter)[0] == Str(signature)
  {
  }

  /** The slots follow the indexed inputs in declaration order: the k-th
      indexed input's slot comes right after the signature topic's k
      predecessors. */
  lemma NamedTopicsSlot(codec: Codec, e: EventDef, signature: string, filter: Dict<Value>, k: nat)
    requires k < IndexedCount(e.inputs)
    ensures SignatureSlots(e, signature) + k < |NamedTopics(codec, e, signature, filter)|
    ensures NamedTopics(codec, e, signature, filter)[SignatureSlots(e, signature) + k]
         == TopicSlot(codec, filter, IndexedInputs(e.inputs)[k])
  {
    var prefix: seq<Value> := if SignatureSlots(e, signature) == 1 then [Str(signature)] else [];
    var idx := IndexedTopics(codec, e.inputs, filter);
    ConcatAt(prefix, idx, k);
  }

  /** An item of the right operand of a concatenation, shifted. */
  lemma ConcatAt<T>(a: seq<T>, b: seq<T>, k: nat)
    requires k < |b|
    ensures (a + b)[|a| + k] == b[k]
  {
  }

  /** The slot of an indexed input: a wildcard exactly when its filter
      value is missing or falsy (`0`, `""`, `"0"`, `false`, an empty
      list), a list of as many encodings as the value has items, or the
      encoding of a scalar value. */
  lemma TopicSlotCases(codec: Codec, filter: Dict<Value>, x: Input)
    ensures var v := OrNull(Get(filter, x.name));
      var slot := TopicSlot(codec, filter, x);
      && (slot == Null <==> !Truthy(v))
      && (Truthy(v) && v.List? ==>
            && slot.List? && |slot.items| == |v.items|
            && (forall j :: 0 <= j < |v.items| ==> slot.items[j] == Str(codec.encodeParameter(x.typ, v.items[j]))))
      && (Truthy(v) && !v.List? ==> slot == Str(codec.encodeParameter(x.typ, v)))
  {
  }

  // ---------------------------------------------------------------------
  // Properties of _decodeABI

  /** The topic-count check is the only source of `TopicCountMismatch`:
      it is raised exactly when the resolved event has indexed inputs and
      the log does not carry one topic per indexed input plus one. Past
      the check, decoding fails only when `decodeLog` does. Any failure
      leaves the log defaulted and formatted. */
  lemma DecodeEventLogErrors(q: EventQuery, s: LogState, id: string, codec: Codec, h: Helpers)
    ensures var topics := TopicsOr(s.topics);
      var inputs := InputsOf(ResolveEvent(q.target, topics));
      var st := DecodeEventLog(q, s, id, codec, h);
      && (st.error == Some(TopicCountMismatch) <==> !TopicCountOk(inputs, topics))
      && (TopicCountOk(inputs, topics) ==>
            IndexedCount(inputs) <= |ArgTopics(topics)| &&
            (st.error.None? <==> DecodeLogSpec(codec, inputs, OrNull(s.data), ArgTopics(topics)).Ok?))
      && (st.error.Some? ==> st.state == PrepareLog(s, id, h))
  {
    var topics := TopicsOr(s.topics);
    var inputs := InputsOf(ResolveEvent(q.target, topics));
    if TopicCountOk(inputs, topics) {
      ArgTopicsSuffice(inputs, topics);
      DecodeLogFailure(codec, inputs, OrNull(s.data), ArgTopics(topics));
    }
  }

  /** A decoded log: a fresh id and formatted numbers, the decoded
      parameters under `returnValues`, the event's name, the first topic as
      `signature`, the original data and topics under `raw`, and no
      top-level `data` or `topics`. */
  lemma DecodeEventLogResult(q: EventQuery, s: LogState, id: string, codec: Codec, h: Helpers)
    requires DecodeEventLog(q, s, id, codec, h).error.None?
    ensures var topics := TopicsOr(s.topics);
      var def := ResolveEvent(q.target, topics);
      var r := DecodeEventLog(q, s, id, codec, h).state;
      && TopicCountOk(InputsOf(def), topics)
      && IndexedCount(InputsOf(def)) <= |ArgTopics(topics)|
      && DecodeLogSpec(codec, InputsOf(def), OrNull(s.data), ArgTopics(topics)).Ok?
      && r.returnValues == Some(DecodeLogSpec(codec, InputsOf(def), OrNull(s.data), ArgTopics(topics)).value)
      && r.event == Some(NameOf(def))
      && r.signature == Some(if |topics| > 0 then Str(topics[0]) else Null)
      && r.raw == Some(Raw(OrNull(s.data), topics))
      && r.data.None? && r.topics.None?
      && r.id == Some(id)
      && r.blockNumber == HexField(h, s.blockNumber)
      && r.transactionIndex == HexField(h, s.transactionIndex)
      && r.logIndex == HexField(h, s.logIndex)
      && r.address == ChecksumField(h, s.address)
  {
    var topics := TopicsOr(s.topics);
    DecodeEventLogErrors(q, s, id, codec, h);
    ArgTopicsSuffice(InputsOf(ResolveEvent(q.target, topics)), topics);
  }

  /** In a decoded log the k-th indexed input holds its value from topic
      k + 1 (the signature topic is skipped), decoded or raw according to
      its type, unless a later indexed input reuses its name. */
  lemma DecodedIndexedValue(q: EventQuery, s: LogState, id: string, codec: Codec, h: Helpers, k: nat)
    requires DecodeEventLog(q, s, id, codec, h).error.None?
    requires var inputs := InputsOf(ResolveEvent(q.target, TopicsOr(s.topics)));
      && k < IndexedCount(inputs)
      && forall j :: k < j < IndexedCount(inputs) ==> IndexedInputs(inputs)[j].name != IndexedInputs(inputs)[k].name
    ensures var topics := TopicsOr(s.topics);
      var inputs := InputsOf(ResolveEvent(q.target, topics));
      && k + 1 < |topics|
      && Get(DecodeEventLog(q, s, id, codec, h).state.returnValues.value, IndexedInputs(inputs)[k].name)
         == Some(IndexedValue(codec, IndexedInputs(inputs)[k], topics[k + 1]))
  {
    var topics := TopicsOr(s.topics);
    var inputs := InputsOf(ResolveEvent(q.target, topics));
    DecodeEventLogResult(q, s, id, codec, h);
    DecodeLogIndexedValue(codec, inputs, OrNull(s.data), ArgTopics(topics), k);
  }

  /** Decoding does not consult the `anonymous` flag: a log of an
      anonymous event with indexed inputs, which carries no signature topic
      and so exactly one topic per indexed input, fails the count check. */
  lemma AnonymousLogRejected(q: EventQuery, s: LogState, id: string, codec: Codec, h: Helpers)
    requires q.target.Named? && q.target.event.anonymous
    requires IndexedCount(q.target.event.inputs) > 0
    requires |TopicsOr(s.topics)| == IndexedCount(q.target.event.inputs)
    ensures DecodeEventLog(q, s, id, codec, h).error == Some(TopicCountMismatch)
  {
    DecodeEventLogErrors(q, s, id, codec, h);
  }

  // ---------------------------------------------------------------------
  // Filter and decoder together

  /** A log topic matches a filter slot as an `eth_getLogs` node matches
      it: a `null` slot matches anything, a string slot that string, and a
      list slot any of its items. */
  predicate SlotMatches(slot: Value, topic: string)
  {
    match slot
    case Null => true
    case Str(t) => t == topic
    case List(items) => Str(topic) in items
    case _ => false
  }

  /** A log whose topics match the filter slots one by one. */
  predicate TopicsMatch(slots: seq<Value>, topics: seq<string>)
  {
    |slots| == |topics| && forall i :: 0 <= i < |slots| ==> SlotMatches(slots[i], topics[i])
  }

  /** `decodeParameter` inverts `encodeParameter` for a type and value. */
  predicate RoundTrips(codec: Codec, typ: string, v: Value)
  {
    codec.decodeParameter(typ, codec.encodeParameter(typ, v)) == v
  }

  /** A topic that matches the slot of an indexed input whose type is
      decoded from its topic decodes, under a codec that inverts its own
      encoding, to the filter value, or to one of the listed values. */
  lemma SlotDecode(codec: Codec, filter: Dict<Value>, x: Input, topic: string)
    requires DecodesTopic(x.typ)
    requires SlotMatches(TopicSlot(codec, filter, x), topic)
    requires var v := OrNull(Get(filter, x.name));
      Truthy(v) && (if v.List? then forall w :: w in v.items ==> RoundTrips(codec, x.typ, w) else RoundTrips(codec, x.typ, v))
    ensures var v := OrNull(Get(filter, x.name));
      && (v.List? ==> IndexedValue(codec, x, topic) in v.items)
      && (!v.List? ==> IndexedValue(codec, x, topic) == v)
  {
    var v := OrNull(Get(filter, x.name));
    if v.List? {
      var slot := TopicSlot(codec, filter, x);
      var j :| 0 <= j < |slot.items| && slot.items[j] == Str(topic);
      assert RoundTrips(codec, x.typ, v.items[j]);
    }
  }

  /** The filter a named, non-anonymous query derives selects logs whose
      decode gives back the filter values: when a log's topics match the
      derived slots and the indexed input's type is decoded from its topic
      with a codec that inverts its own encoding, the decoded value is the
      filter value itself, or one of the listed values for a list. */
  lemma FilterDecodeRoundTrip(q: EventQuery, s: LogState, id: string, codec: Codec, h: Helpers, k: nat)
    requires q.target.Named? && SignatureSlots(q.target.event, q.target.signature) == 1
    requires TopicsMatch(NamedTopics(codec, q.target.event, q.target.signature, FilterOf(q.options)), TopicsOr(s.topics))
    requires var inputs := q.target.event.inputs;
      && k < IndexedCount(inputs)
      && forall j :: k < j < IndexedCount(inputs) ==> IndexedInputs(inputs)[j].name != IndexedInputs(inputs)[k].name
    requires DecodesTopic(IndexedInputs(q.target.event.inputs)[k].typ)
    requires var x := IndexedInputs(q.target.event.inputs)[k];
      var v := OrNull(Get(FilterOf(q.options), x.name));
      Truthy(v) && (if v.List? then forall w :: w in v.items ==> RoundTrips(codec, x.typ, w) else RoundTrips(codec, x.typ, v))
    requires DecodeEventLog(q, s, id, codec, h).error.None?
    ensures var x := IndexedInputs(q.target.event.inputs)[k];
      var v := OrNull(Get(FilterOf(q.options), x.name));
      var got := Get(DecodeEventLog(q, s, id, codec, h).state.returnValues.value, x.name);
      && got.Some?
      && (v.List? ==> got.value in v.items)
      && (!v.List? ==> got.value == v)
  {
    var e, signature, filter := q.target.event, q.target.signature, FilterOf(q.options);
    var topics := TopicsOr(s.topics);
    var x := IndexedInputs(e.inputs)[k];
    NamedTopicsSlot(codec, e, signature, filter, k);
    DecodedIndexedValue(q, s, id, codec, h, k);
    SlotDecode(codec, filter, x, topics[k + 1]);
  }
}
