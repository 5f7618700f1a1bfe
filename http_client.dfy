/**
 * services/services/initial-services/httpClient.js: `buildErrorMessage`, the
 * text the error interceptor shows for a failed response. The response is
 * given by its `status` and its `data` body.
 */
module HttpClient {
  import opened Wrappers
  import opened Json
  import Strings

  /** What `buildErrorMessage` can throw: a property read on `null` or `undefined`. */
  datatype Thrown = TypeError

  /** `x > 0` for the values a `length` read gives; numeric strings and arrays compare as false here. */
  predicate GreaterThanZero(v: Value)
    ensures GreaterThanZero(v) ==> Truthy(v)
    ensures v.Num? ==> (GreaterThanZero(v) <==> v.n > 0)
    ensures v.Undefined? || v.Null? ==> !GreaterThanZero(v)
  {
    match v
    case Num(n) => n > 0
    case Bool(b) => b
    case _ => false
  }

  /** The value of `message` after the if-chain on `error.response.data`. */
  function MessageSource(status: int, data: Value): (r: Value)
    ensures !Truthy(data) ==> r == Str("")
    ensures Truthy(data) ==> r == Get(data, "data") || r == Get(data, "values") || r == Get(data, "message")
  {
    if !Truthy(data) then Str("")
    else if status == 422 then Get(data, "data")
    else if Truthy(Get(data, "data")) && GreaterThanZero(Get(Get(data, "data"), "length")) then Get(data, "data")
    else if Truthy(Get(data, "values")) then Get(data, "values")
    else Get(data, "message")
  }

  /** What one key contributes: `value[0]` when `value.length > 0`, else the value itself. */
  function FirstOrSelf(x: Value): (r: Value)
    requires !x.Undefined? && !x.Null?
    ensures x.Arr? ==> r == if |x.items| > 0 then x.items[0] else x
    ensures x.Str? ==> r == if |x.s| > 0 then Str([x.s[0]]) else x
    ensures x.Num? || x.Bool? ==> r == x
  {
    if GreaterThanZero(Get(x, "length")) then Get(x, "0") else x
  }

  /** One step of the loop, which throws on a `null` or `undefined` value. */
  function FlashItem(x: Value): (r: Result<Value, Thrown>)
    ensures r.Err? <==> x.Undefined? || x.Null?
    ensures x.Arr? && |x.items| > 0 ==> r == Ok(x.items[0])
  {
    if x.Undefined? || x.Null? then Err(TypeError) else Ok(FirstOrSelf(x))
  }

  /** The `flashMessage` array after visiting `keys` in order; the first throw ends the loop. */
  function FlashList(m: Value, keys: seq<string>): (r: Result<seq<Value>, Thrown>)
    requires m.Arr? || m.Obj?
    ensures r.Err? ==> exists i :: 0 <= i < |keys| && FlashItem(Get(m, keys[i])).Err?
    ensures r.Ok? ==> |r.value| == |keys| && forall i :: 0 <= i < |keys| ==> FlashItem(Get(m, keys[i])) == Ok(r.value[i])
    decreases |keys|
  {
    if |keys| == 0 then Ok([])
    else
      var front := keys[..|keys| - 1];
      match FlashList(m, front)
      case Err(e) =>
        FrontErr(keys, front, k => FlashItem(Get(m, k)));
        Err(e)
      case Ok(init) =>
        match FlashItem(Get(m, keys[|keys| - 1]))
        case Err(e) => Err(e)
        case Ok(x) =>
          FrontOk(keys, front, init + [x], k => FlashItem(Get(m, k)));
          Ok(init + [x])
  }

  /** A throwing key before the last is a throwing key of the whole list. */
  lemma FrontErr<K, R>(keys: seq<K>, front: seq<K>, f: K -> Result<R, Thrown>)
    requires |keys| > 0 && front == keys[..|keys| - 1]
    requires exists i :: 0 <= i < |front| && f(front[i]).Err?
    ensures exists i :: 0 <= i < |keys| && f(keys[i]).Err?
  {
    var i :| 0 <= i < |front| && f(front[i]).Err?;
    assert front[i] == keys[i];
  }

  /** Items collected for the keys before the last, then the last key's item. */
  lemma FrontOk<K, R>(keys: seq<K>, front: seq<K>, flash: seq<R>, f: K -> Result<R, Thrown>)
    requires |keys| > 0 && front == keys[..|keys| - 1] && |flash| == |keys|
    requires forall i :: 0 <= i < |front| ==> f(front[i]) == Ok(flash[i])
    requires f(keys[|keys| - 1]) == Ok(flash[|keys| - 1])
    ensures forall i :: 0 <= i < |keys| ==> f(keys[i]) == Ok(flash[i])
  {
    forall i | 0 <= i < |keys|
      ensures f(keys[i]) == Ok(flash[i])
    {
      if i < |front| {
        assert front[i] == keys[i];
      }
    }
  }

  /** The value `buildErrorMessage` returns, or the error it throws. */
  function ErrorMessageOf(status: int, data: Value): (r: Result<Value, Thrown>)
    ensures r.Err? ==> IsObjectType(MessageSource(status, data))
    ensures r.Ok? && IsObjectType(r.value) ==> r.value == Arr([])
  {
    var message := MessageSource(status, data);
    if !IsObjectType(message) then Ok(message)
    else if message.Null? then Err(TypeError)
    else match FlashList(message, Keys(message))
      case Err(e) => Err(e)
      case Ok(flash) => if |flash| > 0 then Ok(Str(JoinValues(flash, "<br/>"))) else Ok(Arr([]))
  }

  lemma {:induction false} FlashListErrPersists(m: Value, keys: seq<string>, i: nat)
    requires m.Arr? || m.Obj?
    requires i <= |keys| && FlashList(m, keys[..i]).Err?
    ensures FlashList(m, keys) == FlashList(m, keys[..i])
    decreases |keys| - i
  {
    if i < |keys| {
      assert keys[..i + 1][..i] == keys[..i];
      assert FlashList(m, keys[..i + 1]) == FlashList(m, keys[..i]);
      FlashListErrPersists(m, keys, i + 1);
    } else {
      assert keys[..i] == keys;
    }
  }

  lemma FlashListStep(m: Value, keys: seq<string>, i: nat, flash: seq<Value>)
    requires m.Arr? || m.Obj?
    requires i < |keys| && FlashList(m, keys[..i]) == Ok(flash)
    ensures FlashList(m, keys[..i + 1]) == match FlashItem(Get(m, keys[i]))
                                           case Err(e) => Err(e)
                                           case Ok(x) => Ok(flash + [x])
  {
    assert keys[..i + 1][..i] == keys[..i];
    assert keys[..i + 1][i] == keys[i];
  }

  /** The if-chain that picks `message` from the response body. */
  method ChooseMessage(status: int, data: Value) returns (message: Value)
    ensures message == MessageSource(status, data)
  {
    message := Str("");
    if Truthy(data) {
      if status == 422 {
        message := Get(data, "data");
      } else if Truthy(Get(data, "data")) && GreaterThanZero(Get(Get(data, "data"), "length")) {
        message := Get(data, "data");
      } else if Truthy(Get(data, "values")) {
        message := Get(data, "values");
      } else {
        message := Get(data, "message");
      }
    }
  }

  /** The `for (let err of Object.keys(message))` loop that fills `flashMessage`. */
  method CollectFlash(message: Value) returns (r: Result<seq<Value>, Thrown>)
    requires message.Arr? || message.Obj?
    ensures r == FlashList(message, Keys(message))
  {
    var keys := Keys(message);
    var flash: seq<Value> := [];
    var i := 0;
    while i < |keys|
      invariant 0 <= i <= |keys|
      invariant FlashList(message, keys[..i]) == Ok(flash)
    {
      var x := Get(message, keys[i]);
      FlashListStep(message, keys, i, flash);
      if x.Undefined? || x.Null? {
        FlashListErrPersists(message, keys, i + 1);
        return Err(TypeError);
      }
      if GreaterThanZero(Get(x, "length")) {
        flash := flash + [Get(x, "0")];
      } else {
        flash := flash + [x];
      }
      i := i + 1;
    }
    assert keys[..i] == keys;
    return Ok(flash);
  }

  /** `buildErrorMessage(error)`, for an `error` whose `response` has the given `status` and `data`. */
  method BuildErrorMessage(status: int, data: Value) returns (r: Result<Value, Thrown>)
    ensures r == ErrorMessageOf(status, data)
  {
    var message := ChooseMessage(status, data);
    if !IsObjectType(message) {
      return Ok(message);
    }
    if message.Null? {
      return Err(TypeError);
    }
    var flash := CollectFlash(message);
    if flash.Err? {
      return Err(flash.error);
    }
    if |flash.value| > 0 {
      return Ok(Str(JoinValues(flash.value, "<br/>")));
    }
    return Ok(Arr([]));
  }

  // ----- What the message is -----

  /** Without a response body the message is the empty string. */
  lemma NoDataNoMessage(status: int, data: Value)
    requires !Truthy(data)
    ensures ErrorMessageOf(status, data) == Ok(Str(""))
  {
  }

  /**
   * Status 422 always reads `data.data`; any other status reads `data.data`
   * when it is non-empty, else `data.values` when truthy, else `data.message`.
   */
  lemma SourcePrecedence(status: int, data: Value)
    requires Truthy(data)
    ensures status == 422 ==> MessageSource(status, data) == Get(data, "data")
    ensures status != 422 && Truthy(Get(data, "data")) && GreaterThanZero(Get(Get(data, "data"), "length"))
      ==> MessageSource(status, data) == Get(data, "data")
    ensures status != 422 && !(Truthy(Get(data, "data")) && GreaterThanZero(Get(Get(data, "data"), "length")))
      && Truthy(Get(data, "values"))
      ==> MessageSource(status, data) == Get(data, "values")
    ensures status != 422 && !(Truthy(Get(data, "data")) && GreaterThanZero(Get(Get(data, "data"), "length")))
      && !Truthy(Get(data, "values"))
      ==> MessageSource(status, data) == Get(data, "message")
  {
  }

  /** A message that is not an object (a string, a number, `undefined`) is returned as it is. */
  lemma PlainMessageUnchanged(status: int, data: Value)
    requires !IsObjectType(MessageSource(status, data))
    ensures ErrorMessageOf(status, data) == Ok(MessageSource(status, data))
  {
  }

  /** `Object.keys(null)` throws: a `null` message is an error, not a text. */
  lemma NullMessageThrows(status: int, data: Value)
    requires MessageSource(status, data) == Null
    ensures ErrorMessageOf(status, data).Err?
  {
  }

  /**
   * Over an array, or an object without repeated keys, whose values are all
   * defined, the loop collects `FirstOrSelf` of each value in key order.
   */
  lemma {:induction false} FlashListInOrder(m: Value, n: nat)
    requires m.Arr? || (m.Obj? && DistinctKeys(m.entries))
    requires n <= |Keys(m)|
    requires forall i :: 0 <= i < |Keys(m)| ==> !Get(m, Keys(m)[i]).Undefined? && !Get(m, Keys(m)[i]).Null?
    ensures FlashList(m, Keys(m)[..n]).Ok?
    ensures var flash := FlashList(m, Keys(m)[..n]).value;
      |flash| == n && forall i :: 0 <= i < n ==> flash[i] == FirstOrSelf(Get(m, Keys(m)[i]))
    decreases n
  {
    if n > 0 {
      var keys := Keys(m);
      assert keys[..n][..n - 1] == keys[..n - 1];
      FlashListInOrder(m, n - 1);
    }
  }

  /** An empty object, or an empty array, gives an empty array rather than a text. */
  lemma EmptyObjectGivesEmptyArray(status: int, data: Value)
    requires MessageSource(status, data) in {Obj([]), Arr([])}
    ensures ErrorMessageOf(status, data) == Ok(Arr([]))
  {
  }

  /** Over keys whose values all contribute strings, the loop collects those strings. */
  lemma FlashListStrings(m: Value, parts: seq<string>)
    requires m.Arr? || (m.Obj? && DistinctKeys(m.entries))
    requires |Keys(m)| == |parts|
    requires forall i :: 0 <= i < |parts| ==>
      !Get(m, Keys(m)[i]).Undefined? && !Get(m, Keys(m)[i]).Null? && FirstOrSelf(Get(m, Keys(m)[i])) == Str(parts[i])
    ensures FlashList(m, Keys(m)) == Ok(seq(|parts|, i requires 0 <= i < |parts| => Str(parts[i])))
  {
    var keys, n := Keys(m), |parts|;
    assert keys[..n] == keys;
    FlashListInOrder(m, n);
    var flash, strs := FlashList(m, keys).value, seq(n, i requires 0 <= i < n => Str(parts[i]));
    forall i | 0 <= i < n ensures flash[i] == strs[i] {
    }
    assert flash == strs;
  }

  /**
   * When every key of an array or object message contributes a one-piece
   * string, the message is those strings joined with `<br/>`.
   */
  lemma JoinedContributions(status: int, data: Value, parts: seq<string>)
    requires var m := MessageSource(status, data); m.Arr? || (m.Obj? && DistinctKeys(m.entries))
    requires |parts| > 0 && |Keys(MessageSource(status, data))| == |parts|
    requires var m := MessageSource(status, data);
      forall i :: 0 <= i < |parts| ==>
        !Get(m, Keys(m)[i]).Undefined? && !Get(m, Keys(m)[i]).Null? &&
        FirstOrSelf(Get(m, Keys(m)[i])) == Str(parts[i])
    ensures ErrorMessageOf(status, data) == Ok(Str(Strings.Join(parts, "<br/>")))
  {
    var m := MessageSource(status, data);
    var n := |parts|;
    var strs := seq(|parts|, i requires 0 <= i < |parts| => Str(parts[i]));
    FlashListStrings(m, parts);
    assert ErrorMessageOf(status, data) == Ok(Str(JoinValues(strs, "<br/>"))) by {
      assert IsObjectType(m) && !m.Null? && |strs| > 0;
    }
    JoinStrings(parts, "<br/>");
  }

  /** `data.data` of a validation failure: each field mapped to its list of messages. */
  function ValidationBag(fields: seq<string>, msgs: seq<seq<string>>): Value
    requires |fields| == |msgs|
  {
    Obj(seq(|fields|, i requires 0 <= i < |fields| => (fields[i], StringArray(msgs[i]))))
  }

  function StringArray(strs: seq<string>): Value {
    Arr(seq(|strs|, i requires 0 <= i < |strs| => Str(strs[i])))
  }

  /**
   * A validation failure, status 422 with `data.data` an object mapping each
   * field to a non-empty list of messages, shows the first message of each
   * field, in field order, joined with `<br/>`.
   */
  lemma ValidationMessages(data: Value, fields: seq<string>, msgs: seq<seq<string>>)
    requires Truthy(data) && |fields| == |msgs| > 0
    requires forall i, j :: 0 <= i < j < |fields| ==> fields[i] != fields[j]
    requires forall i :: 0 <= i < |msgs| ==> |msgs[i]| > 0
    requires Get(data, "data") == ValidationBag(fields, msgs)
    ensures ErrorMessageOf(422, data) ==
      Ok(Str(Strings.Join(seq(|msgs|, i requires 0 <= i < |msgs| => msgs[i][0]), "<br/>")))
  {
    var m := ValidationBag(fields, msgs);
    assert MessageSource(422, data) == m;
    var firsts := seq(|msgs|, i requires 0 <= i < |msgs| => msgs[i][0]);
    forall i | 0 <= i < |fields|
      ensures Get(m, Keys(m)[i]) == StringArray(msgs[i])
      ensures FirstOrSelf(Get(m, Keys(m)[i])) == Str(firsts[i])
    {
      GetKeys(m, i);
      IndexKeyRoundTrip(0);
    }
    JoinedContributions(422, data, firsts);
  }

  /**
   * For an array of non-empty strings the per-key rule applies to indices:
   * each string contributes only its first character.
   */
  lemma ArrayOfStringsFirstCharacters(status: int, data: Value, strs: seq<string>)
    requires |strs| > 0 && forall i :: 0 <= i < |strs| ==> |strs[i]| > 0
    requires MessageSource(status, data) == StringArray(strs)
    ensures ErrorMessageOf(status, data) ==
      Ok(Str(Strings.Join(seq(|strs|, i requires 0 <= i < |strs| => strs[i][..1]), "<br/>")))
  {
    var m := MessageSource(status, data);
    var firsts := seq(|strs|, i requires 0 <= i < |strs| => strs[i][..1]);
    forall i | 0 <= i < |strs|
      ensures Get(m, Keys(m)[i]) == Str(strs[i])
      ensures FirstOrSelf(Get(m, Keys(m)[i])) == Str(firsts[i])
    {
      GetKeys(m, i);
      IndexKeyRoundTrip(0);
      assert [strs[i][0]] == strs[i][..1];
    }
    JoinedContributions(status, data, firsts);
  }
}
