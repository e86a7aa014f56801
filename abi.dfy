/** Event definitions of a contract ABI, the foreign collaborators the codec
    calls (scalar ABI codec, formatters), and the decoding of one log's
    parameters: `decodeLog` of src/Contracts/Event.php, which
    src/Contracts/TxReceipt.php repeats verbatim. */
module Abi {
  import opened Php

  /** One input of an event: `{name, type, indexed}`. */
  datatype Input = Input(name: string, typ: string, indexed: bool)

  /** An ABI event entry. A missing `anonymous` key reads as `false`. */
  datatype EventDef = EventDef(name: string, anonymous: bool, inputs: seq<Input>)

  /** The scalar ABI codec. It is foreign code (keccak-256, type encoding),
      so it enters the model as a record of functions the caller supplies. */
  datatype Codec = Codec(
    encodeEventSignature: EventDef -> string,
    encodeParameter: (string, Value) -> string,
    decodeParameter: (string, string) -> Value,
    decodeParameters: (seq<string>, Value) -> seq<Value>)

  /** Foreign formatting helpers: `Bc::hexdec`, `Utils::toChecksumAddress`
      (EIP-55) and the block-tag formatter `OptionalQuantityFormatter::format`. */
  datatype Helpers = Helpers(
    hexdec: Value -> Value,
    toChecksumAddress: Value -> Value,
    formatBlock: Value -> Value)

  /** The exceptions the codec throws. */
  datatype Error =
    | EventNotFound                          // 'Event Doesnt Exist on Contract'
    | TopicCountMismatch                     // 'Event results dont match'
    | EventTopicCountMismatch(event: string) // "Event {name} signatures dont match"
    | CombineLengthMismatch                  // PHP 8 ValueError from array_combine
    | TopicsNotArray                         // PHP 8 TypeError: count/array_slice of a missing `topics`

  // ---------------------------------------------------------------------
  // Indexed and non-indexed inputs

  /** The indexed inputs, in declaration order. */
  function IndexedInputs(inputs: seq<Input>): (r: seq<Input>)
    ensures |r| <= |inputs|
    decreases |inputs|
  {
    if inputs == [] then []
    else
      var n := |inputs| - 1;
      IndexedInputs(inputs[..n]) + (if inputs[n].indexed then [inputs[n]] else [])
  }

  /** The non-indexed inputs, in declaration order. */
  function NonIndexedInputs(inputs: seq<Input>): (r: seq<Input>)
    ensures |r| <= |inputs|
    decreases |inputs|
  {
    if inputs == [] then []
    else
      var n := |inputs| - 1;
      NonIndexedInputs(inputs[..n]) + (if inputs[n].indexed then [] else [inputs[n]])
  }

  /** The number of inputs flagged `indexed`. */
  function IndexedCount(inputs: seq<Input>): nat
  {
    |IndexedInputs(inputs)|
  }

  function Names(xs: seq<Input>): (ns: seq<string>)
    ensures |ns| == |xs|
    ensures forall i :: 0 <= i < |xs| ==> ns[i] == xs[i].name
  {
    if xs == [] then [] else [xs[0].name] + Names(xs[1..])
  }

  /** `name => type` pairs, in order. */
  function TypePairs(xs: seq<Input>): (ps: seq<(string, string)>)
    ensures |ps| == |xs|
    ensures forall i :: 0 <= i < |xs| ==> ps[i] == (xs[i].name, xs[i].typ)
  {
    if xs == [] then [] else [(xs[0].name, xs[0].typ)] + TypePairs(xs[1..])
  }

  /** Every input is either indexed or not: the two filters split the
      inputs, and the indexed count grows by one exactly at an indexed
      input. */
  lemma {:induction false} IndexedSplit(inputs: seq<Input>)
    ensures IndexedCount(inputs) + |NonIndexedInputs(inputs)| == |inputs|
    decreases |inputs|
  {
    if inputs != [] {
      IndexedSplit(inputs[..|inputs| - 1]);
    }
  }

  /** A prefix of the inputs never has more indexed inputs than the whole. */
  lemma {:induction false} IndexedCountPrefix(inputs: seq<Input>, i: nat)
    requires i <= |inputs|
    ensures IndexedCount(inputs[..i]) <= IndexedCount(inputs)
    decreases |inputs| - i
  {
    if i == |inputs| {
      assert inputs[..i] == inputs;
    } else {
      assert inputs[..i + 1][..i] == inputs[..i];
      IndexedCountPrefix(inputs, i + 1);
    }
  }

  /** The indexed inputs are exactly the inputs flagged `indexed`, and the
      non-indexed inputs exactly the others. */
  lemma {:induction false} InputsMembers(inputs: seq<Input>)
    ensures forall x :: x in IndexedInputs(inputs) <==> x in inputs && x.indexed
    ensures forall x :: x in NonIndexedInputs(inputs) <==> x in inputs && !x.indexed
    decreases |inputs|
  {
    if inputs != [] {
      var n := |inputs| - 1;
      InputsMembers(inputs[..n]);
      assert inputs == inputs[..n] + [inputs[n]];
    }
  }

  /** Both filters keep declaration order: filtering a concatenation
      concatenates the filtered parts. */
  lemma {:induction false} InputsAppend(xs: seq<Input>, ys: seq<Input>)
    ensures IndexedInputs(xs + ys) == IndexedInputs(xs) + IndexedInputs(ys)
    ensures NonIndexedInputs(xs + ys) == NonIndexedInputs(xs) + NonIndexedInputs(ys)
    decreases |ys|
  {
    if ys == [] {
      assert xs + ys == xs;
    } else {
      var n := |ys| - 1;
      assert (xs + ys)[..|xs + ys| - 1] == xs + ys[..n];
      InputsAppend(xs, ys[..n]);
    }
  }

  // ---------------------------------------------------------------------
  // Which indexed types have their topic decoded

  predicate IsLetter(c: char)
  {
    ('a' <= c <= 'z') || ('A' <= c <= 'Z')
  }

  /** The match of `/^([a-zA-Z]+)/` on a type name: its longest prefix of
      ASCII letters (empty when the type does not start with a letter). */
  function LeadingAlpha(t: string): (p: string)
    ensures |p| <= |t| && p == t[..|p|]
    ensures forall i :: 0 <= i < |p| ==> IsLetter(p[i])
    ensures |p| < |t| ==> !IsLetter(t[|p|])
  {
    if t == [] || !IsLetter(t[0]) then "" else [t[0]] + LeadingAlpha(t[1..])
  }

  /** The type families whose indexed topic is decoded. */
  const PrimitiveFamilies: seq<string> :=
    ["address", "bool", "bytes", "dynamicBytes", "int", "string", "uint"]

  /** An indexed input's topic is decoded exactly when the type's leading
      letters name a primitive family (`uint256`, `int8[]`, `bytes32`, ...).
      Other types (`tuple`, `fixed128x18`, ...) keep the raw topic, which
      for them is only a hash of the value. */
  predicate DecodesTopic(typ: string)
  {
    LeadingAlpha(typ) in PrimitiveFamilies
  }

  /** The value an indexed input takes from its topic. */
  function IndexedValue(codec: Codec, x: Input, topic: string): Value
  {
    if DecodesTopic(x.typ) then codec.decodeParameter(x.typ, topic) else Str(topic)
  }

  /** The k-th indexed input is paired with the k-th topic. */
  function IndexedPairs(codec: Codec, idx: seq<Input>, topics: seq<string>): (ps: seq<(string, Value)>)
    requires |idx| <= |topics|
    ensures |ps| == |idx|
    ensures forall k :: 0 <= k < |idx| ==> ps[k] == (idx[k].name, IndexedValue(codec, idx[k], topics[k]))
    decreases |idx|
  {
    if idx == [] then []
    else
      var n := |idx| - 1;
      IndexedPairs(codec, idx[..n], topics) + [(idx[n].name, IndexedValue(codec, idx[n], topics[n]))]
  }

  // ---------------------------------------------------------------------
  // decodeLog: reference definition

  /** `$nonIndexedInputs`: name => type of the non-indexed inputs. */
  function NonIndexedTypes(inputs: seq<Input>): Dict<string>
  {
    FromPairs(TypePairs(NonIndexedInputs(inputs)))
  }

  /** `$notIndexedParams`: the batch decode of the data blob, which happens
      only when the data is truthy. */
  function BatchDecoded(codec: Codec, inputs: seq<Input>, data: Value): seq<Value>
  {
    if Truthy(data) then codec.decodeParameters(Values(NonIndexedTypes(inputs)), data) else []
  }

  /** `$indexedParams`: name => value of the indexed inputs. */
  function IndexedParams(codec: Codec, inputs: seq<Input>, topics: seq<string>): Dict<Value>
    requires IndexedCount(inputs) <= |topics|
  {
    FromPairs(IndexedPairs(codec, IndexedInputs(inputs), topics))
  }

  /** The tail of `decodeLog`: batch-decode the data when it is truthy,
      `array_combine` the names with the values, then `array_merge` the
      indexed values over them. */
  function CombineAndMerge(codec: Codec, nonIdx: Dict<string>, indexedParams: Dict<Value>, data: Value): Result<Dict<Value>, Error>
  {
    var notIndexedParams := if Truthy(data) then codec.decodeParameters(Values(nonIdx), data) else [];
    match Combine(Keys(nonIdx), notIndexedParams)
    case None => Err(CombineLengthMismatch)
    case Some(results) => Ok(PutAll(results, indexedParams))
  }

  /** What `decodeLog(inputs, data, topics)` returns: the non-indexed values
      combined with their names, merged with the indexed values. */
  function DecodeLogSpec(codec: Codec, inputs: seq<Input>, data: Value, topics: seq<string>): Result<Dict<Value>, Error>
    requires IndexedCount(inputs) <= |topics|
  {
    CombineAndMerge(codec, NonIndexedTypes(inputs), IndexedParams(codec, inputs, topics), data)
  }

  // ---------------------------------------------------------------------
  // decodeLog: the loop

  lemma PrefixStep(inputs: seq<Input>, i: nat)
    requires i < |inputs|
    ensures inputs[..i + 1][..i] == inputs[..i]
    ensures IndexedInputs(inputs[..i + 1]) == IndexedInputs(inputs[..i]) + (if inputs[i].indexed then [inputs[i]] else [])
    ensures NonIndexedInputs(inputs[..i + 1]) == NonIndexedInputs(inputs[..i]) + (if inputs[i].indexed then [] else [inputs[i]])
  {
    assert inputs[..i + 1][..i] == inputs[..i];
  }

  lemma FromPairsSnoc<V>(ps: seq<(string, V)>, p: (string, V))
    ensures FromPairs(ps + [p]) == Put(FromPairs(ps), p.0, p.1)
  {
    assert (ps + [p])[..|ps|] == ps;
  }

  lemma IndexedPairsSnoc(codec: Codec, idx: seq<Input>, x: Input, topics: seq<string>)
    requires |idx| < |topics|
    ensures IndexedPairs(codec, idx + [x], topics)
         == IndexedPairs(codec, idx, topics) + [(x.name, IndexedValue(codec, x, topics[|idx|]))]
  {
    assert (idx + [x])[..|idx|] == idx;
  }

  lemma TypePairsSnoc(xs: seq<Input>, x: Input)
    ensures TypePairs(xs + [x]) == TypePairs(xs) + [(x.name, x.typ)]
  {
  }

  /** One loop step at an indexed input: the topic cursor is in range, the
      value is put under the input's name and the cursor advances. */
  lemma IndexedStep(codec: Codec, inputs: seq<Input>, i: nat, topics: seq<string>,
                    count: nat, indexedParams: Dict<Value>)
    requires i < |inputs| && inputs[i].indexed
    requires IndexedCount(inputs) <= |topics|
    requires count == IndexedCount(inputs[..i]) <= |topics|
    requires indexedParams == FromPairs(IndexedPairs(codec, IndexedInputs(inputs[..i]), topics))
    ensures count < |topics| && count + 1 == IndexedCount(inputs[..i + 1])
    ensures NonIndexedInputs(inputs[..i + 1]) == NonIndexedInputs(inputs[..i])
    ensures Put(indexedParams, inputs[i].name, IndexedValue(codec, inputs[i], topics[count]))
         == FromPairs(IndexedPairs(codec, IndexedInputs(inputs[..i + 1]), topics))
  {
    IndexedCountPrefix(inputs, i + 1);
    PrefixStep(inputs, i);
    var idx := IndexedInputs(inputs[..i]);
    assert NonIndexedInputs(inputs[..i]) + [] == NonIndexedInputs(inputs[..i]);
    IndexedPairsSnoc(codec, idx, inputs[i], topics);
    FromPairsSnoc(IndexedPairs(codec, idx, topics), (inputs[i].name, IndexedValue(codec, inputs[i], topics[|idx|])));
  }

  /** One loop step at a non-indexed input: its type is put under its name. */
  lemma NonIndexedStep(inputs: seq<Input>, i: nat, nonIndexedInputs: Dict<string>)
    requires i < |inputs| && !inputs[i].indexed
    requires nonIndexedInputs == FromPairs(TypePairs(NonIndexedInputs(inputs[..i])))
    ensures IndexedInputs(inputs[..i + 1]) == IndexedInputs(inputs[..i])
    ensures Put(nonIndexedInputs, inputs[i].name, inputs[i].typ)
         == FromPairs(TypePairs(NonIndexedInputs(inputs[..i + 1])))
  {
    PrefixStep(inputs, i);
    assert IndexedInputs(inputs[..i]) + [] == IndexedInputs(inputs[..i]);
    TypePairsSnoc(NonIndexedInputs(inputs[..i]), inputs[i]);
    FromPairsSnoc(TypePairs(NonIndexedInputs(inputs[..i])), (inputs[i].name, inputs[i].typ));
  }

  /** After the last input the accumulators are the specification's. */
  lemma LoopExit(codec: Codec, inputs: seq<Input>, topics: seq<string>)
    requires IndexedCount(inputs) <= |topics|
    ensures inputs[..|inputs|] == inputs
    ensures FromPairs(TypePairs(NonIndexedInputs(inputs[..|inputs|]))) == NonIndexedTypes(inputs)
    ensures FromPairs(IndexedPairs(codec, IndexedInputs(inputs[..|inputs|]), topics))
         == IndexedParams(codec, inputs, topics)
  {
    assert inputs[..|inputs|] == inputs;
  }

  /** `decodeLog`: one pass over the inputs with a topic cursor that
      advances at each indexed input, then the batch decode of the data
      and the merge. `topics` are the log's topics without the signature
      topic; callers have checked there is one per indexed input. */
  method DecodeLog(codec: Codec, inputs: seq<Input>, data: Value, topics: seq<string>)
    returns (r: Result<Dict<Value>, Error>)
    requires IndexedCount(inputs) <= |topics|
    ensures r == DecodeLogSpec(codec, inputs, data, topics)
  {
    var nonIndexedInputs: Dict<string> := [];
    var indexedParams: Dict<Value> := [];
    var topicCount := 0;
    for i := 0 to |inputs|
      invariant topicCount == IndexedCount(inputs[..i]) <= |topics|
      invariant nonIndexedInputs == FromPairs(TypePairs(NonIndexedInputs(inputs[..i])))
      invariant indexedParams == FromPairs(IndexedPairs(codec, IndexedInputs(inputs[..i]), topics))
    {
      var input := inputs[i];
      if input.indexed {
        IndexedStep(codec, inputs, i, topics, topicCount, indexedParams);
        var value := if DecodesTopic(input.typ)
          then codec.decodeParameter(input.typ, topics[topicCount])
          else Str(topics[topicCount]);
        indexedParams := Put(indexedParams, input.name, value);
        topicCount := topicCount + 1;
      } else {
        NonIndexedStep(inputs, i, nonIndexedInputs);
        nonIndexedInputs := Put(nonIndexedInputs, input.name, input.typ);
      }
    }
    LoopExit(codec, inputs, topics);
    r := CombineAndMerge(codec, nonIndexedInputs, indexedParams, data);
  }

  // ---------------------------------------------------------------------
  // Properties of decodeLog

  lemma NonIndexedKeys(inputs: seq<Input>)
    ensures Keys(NonIndexedTypes(inputs)) == Distinct(Names(NonIndexedInputs(inputs)))
    ensures NoDuplicates(Keys(NonIndexedTypes(inputs)))
  {
    var ni := NonIndexedInputs(inputs);
    KeysPutAll([], TypePairs(ni));
    assert Keys(TypePairs(ni)) == Names(ni);
    DistinctSpec(Names(ni));
  }

  lemma DecodeLogSpecValue(codec: Codec, inputs: seq<Input>, data: Value, topics: seq<string>)
    requires IndexedCount(inputs) <= |topics|
    requires DecodeLogSpec(codec, inputs, data, topics).Ok?
    ensures Combine(Keys(NonIndexedTypes(inputs)), BatchDecoded(codec, inputs, data)).Some?
    ensures DecodeLogSpec(codec, inputs, data, topics).value
         == PutAll(Combine(Keys(NonIndexedTypes(inputs)), BatchDecoded(codec, inputs, data)).value,
                   IndexedParams(codec, inputs, topics))
  {
  }

  /** The decode fails exactly when the batch decode does not yield one
      value per distinct non-indexed name, and then with the
      `array_combine` error. */
  lemma DecodeLogFailure(codec: Codec, inputs: seq<Input>, data: Value, topics: seq<string>)
    requires IndexedCount(inputs) <= |topics|
    ensures DecodeLogSpec(codec, inputs, data, topics).Err?
        <==> |BatchDecoded(codec, inputs, data)| != |Distinct(Names(NonIndexedInputs(inputs)))|
    ensures DecodeLogSpec(codec, inputs, data, topics).Err?
        ==> DecodeLogSpec(codec, inputs, data, topics).error == CombineLengthMismatch
  {
    NonIndexedKeys(inputs);
  }

  /** With empty (falsy) data nothing is batch-decoded, so the decode
      succeeds exactly when the event has no non-indexed input. */
  lemma DecodeLogWithoutData(codec: Codec, inputs: seq<Input>, data: Value, topics: seq<string>)
    requires IndexedCount(inputs) <= |topics|
    requires !Truthy(data)
    ensures DecodeLogSpec(codec, inputs, data, topics).Ok? <==> NonIndexedInputs(inputs) == []
  {
    NonIndexedKeys(inputs);
    var names := Names(NonIndexedInputs(inputs));
    DistinctSpec(names);
    if names != [] {
      assert names[0] in Distinct(names);
    }
  }

  /** `$indexedParams` has one entry per distinct indexed name, in order
      of first occurrence. */
  lemma IndexedParamsFacts(codec: Codec, inputs: seq<Input>, topics: seq<string>)
    requires IndexedCount(inputs) <= |topics|
    ensures Keys(IndexedParams(codec, inputs, topics)) == Distinct(Names(IndexedInputs(inputs)))
    ensures NoDuplicates(Keys(IndexedParams(codec, inputs, topics)))
  {
    var ps := IndexedPairs(codec, IndexedInputs(inputs), topics);
    KeysPutAll([], ps);
    assert Keys(ps) == Names(IndexedInputs(inputs));
    DistinctSpec(Names(IndexedInputs(inputs)));
  }

  /** The decoded record lists the non-indexed names first, then the
      indexed names, each name once at its first position. */
  lemma DecodeLogKeys(codec: Codec, inputs: seq<Input>, data: Value, topics: seq<string>)
    requires IndexedCount(inputs) <= |topics|
    requires DecodeLogSpec(codec, inputs, data, topics).Ok?
    ensures Keys(DecodeLogSpec(codec, inputs, data, topics).value)
         == Distinct(Names(NonIndexedInputs(inputs)) + Names(IndexedInputs(inputs)))
  {
    var ni := Names(NonIndexedInputs(inputs));
    var ix := Names(IndexedInputs(inputs));
    var decoded := BatchDecoded(codec, inputs, data);
    NonIndexedKeys(inputs);
    CombineDistinct(Keys(NonIndexedTypes(inputs)), decoded);
    var results := Combine(Keys(NonIndexedTypes(inputs)), decoded).value;
    var ip := IndexedParams(codec, inputs, topics);
    IndexedParamsFacts(codec, inputs, topics);
    KeysPutAll(results, ip);
    AddNewDistinct(Distinct(ni), ix);
    AddNewConcat([], ni, ix);
  }

  /** In `$indexedParams` the k-th indexed input's name holds the value of
      the k-th topic, unless a later indexed input reuses the name. */
  lemma IndexedParamsGet(codec: Codec, inputs: seq<Input>, topics: seq<string>, k: nat)
    requires IndexedCount(inputs) <= |topics|
    requires k < IndexedCount(inputs)
    requires forall j :: k < j < IndexedCount(inputs) ==> IndexedInputs(inputs)[j].name != IndexedInputs(inputs)[k].name
    ensures IndexedInputs(inputs)[k].name in Keys(IndexedParams(codec, inputs, topics))
    ensures Get(IndexedParams(codec, inputs, topics), IndexedInputs(inputs)[k].name)
         == Some(IndexedValue(codec, IndexedInputs(inputs)[k], topics[k]))
  {
    var ps := IndexedPairs(codec, IndexedInputs(inputs), topics);
    assert forall j' :: k < j' < |ps| ==> ps[j'].0 != ps[k].0;
    GetPutAllLast([], ps, k);
  }

  /** The k-th indexed input takes its value from the k-th topic (decoded
      or raw, by its type), unless a later indexed input reuses its name. */
  lemma DecodeLogIndexedValue(codec: Codec, inputs: seq<Input>, data: Value, topics: seq<string>, k: nat)
    requires IndexedCount(inputs) <= |topics|
    requires k < IndexedCount(inputs)
    requires forall j :: k < j < IndexedCount(inputs) ==> IndexedInputs(inputs)[j].name != IndexedInputs(inputs)[k].name
    requires DecodeLogSpec(codec, inputs, data, topics).Ok?
    ensures Get(DecodeLogSpec(codec, inputs, data, topics).value, IndexedInputs(inputs)[k].name)
         == Some(IndexedValue(codec, IndexedInputs(inputs)[k], topics[k]))
  {
    DecodeLogSpecValue(codec, inputs, data, topics);
    IndexedParamsGet(codec, inputs, topics, k);
    IndexedParamsFacts(codec, inputs, topics);
    var results := Combine(Keys(NonIndexedTypes(inputs)), BatchDecoded(codec, inputs, data)).value;
    MergeGet(results, IndexedParams(codec, inputs, topics), IndexedInputs(inputs)[k].name);
  }

  /** With distinct non-indexed names, `array_combine` pairs the j-th
      non-indexed name with the j-th batch-decoded value. */
  lemma CombinedNonIndexedValue(codec: Codec, inputs: seq<Input>, data: Value, j: nat)
    requires NoDuplicates(Names(NonIndexedInputs(inputs)))
    requires j < |NonIndexedInputs(inputs)|
    requires Combine(Keys(NonIndexedTypes(inputs)), BatchDecoded(codec, inputs, data)).Some?
    ensures j < |BatchDecoded(codec, inputs, data)|
    ensures Get(Combine(Keys(NonIndexedTypes(inputs)), BatchDecoded(codec, inputs, data)).value,
                NonIndexedInputs(inputs)[j].name)
         == Some(BatchDecoded(codec, inputs, data)[j])
  {
    var ni := Names(NonIndexedInputs(inputs));
    DistinctOfDistinct(ni);
    NonIndexedKeys(inputs);
    CombineDistinct(ni, BatchDecoded(codec, inputs, data));
  }

  /** When all parameter names are distinct, the j-th non-indexed input
      takes the j-th value of the batch decode. */
  lemma DecodeLogNonIndexedValue(codec: Codec, inputs: seq<Input>, data: Value, topics: seq<string>, j: nat)
    requires IndexedCount(inputs) <= |topics|
    requires NoDuplicates(Names(NonIndexedInputs(inputs)) + Names(IndexedInputs(inputs)))
    requires j < |NonIndexedInputs(inputs)|
    requires DecodeLogSpec(codec, inputs, data, topics).Ok?
    ensures j < |BatchDecoded(codec, inputs, data)|
    ensures Get(DecodeLogSpec(codec, inputs, data, topics).value, NonIndexedInputs(inputs)[j].name)
         == Some(BatchDecoded(codec, inputs, data)[j])
  {
    var ni := Names(NonIndexedInputs(inputs));
    var ix := Names(IndexedInputs(inputs));
    NoDuplicatesConcat(ni, ix);
    DecodeLogSpecValue(codec, inputs, data, topics);
    CombinedNonIndexedValue(codec, inputs, data, j);
    var results := Combine(Keys(NonIndexedTypes(inputs)), BatchDecoded(codec, inputs, data)).value;
    IndexedParamsFacts(codec, inputs, topics);
    DistinctSpec(ix);
    assert ni[j] in ni;
    GetPutAllUntouched(results, IndexedParams(codec, inputs, topics), ni[j]);
  }
}
