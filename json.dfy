/**
 * The JavaScript values the modelled code inspects: truthiness, `String(v)`,
 * property reads and `Object.keys`. Numbers are integers here; an object is
 * its list of own entries in key order, with no key twice.
 */
module Json {
  import opened Wrappers
  import Strings

  datatype Value =
    | Undefined
    | Null
    | Bool(b: bool)
    | Num(n: int)
    | Str(s: string)
    | Arr(items: seq<Value>)
    | Obj(entries: seq<(string, Value)>)

  /** `Boolean(v)`: every value is truthy except the five falsy ones. */
  predicate Truthy(v: Value)
    ensures !Truthy(v) <==> v == Undefined || v == Null || v == Bool(false) || v == Num(0) || v == Str("")
  {
    match v
    case Undefined => false
    case Null => false
    case Bool(b) => b
    case Num(n) => n != 0
    case Str(s) => s != ""
    case _ => true
  }

  /** `typeof v === "object"`, which holds for `null` too. */
  predicate IsObjectType(v: Value) {
    v.Null? || v.Arr? || v.Obj?
  }

  function DigitChar(d: nat): char
    requires d < 10
  {
    "0123456789"[d]
  }

  /** The decimal text of a natural number, as `String(n)` writes it. */
  function NatToString(n: nat): (s: string)
    ensures |s| > 0 && (s[0] == '0' ==> n == 0)
    ensures forall i :: 0 <= i < |s| ==> '0' <= s[i] <= '9'
  {
    if n < 10 then [DigitChar(n)] else NatToString(n / 10) + [DigitChar(n % 10)]
  }

  function IntToString(n: int): string {
    if n < 0 then "-" + NatToString(-n) else NatToString(n)
  }

  /** The value of a string of decimal digits. */
  function DigitsValue(s: string): nat
    requires forall i :: 0 <= i < |s| ==> '0' <= s[i] <= '9'
  {
    if |s| == 0 then 0
    else DigitsValue(s[..|s| - 1]) * 10 + (s[|s| - 1] as int - '0' as int)
  }

  /** An array index written as a property key: digits, with no leading zero. */
  function ParseIndex(key: string): (r: Option<nat>)
  {
    if |key| > 0 && (forall i :: 0 <= i < |key| ==> '0' <= key[i] <= '9') && (key[0] != '0' || key == "0")
    then Some(DigitsValue(key))
    else None
  }

  /** Writing an index as a key and reading it back gives the index. */
  lemma {:induction false} IndexKeyRoundTrip(n: nat)
    ensures ParseIndex(NatToString(n)) == Some(n)
    decreases n
  {
    var s := NatToString(n);
    if n >= 10 {
      IndexKeyRoundTrip(n / 10);
      assert s[..|s| - 1] == NatToString(n / 10);
      assert DigitsValue(s) == DigitsValue(NatToString(n / 10)) * 10 + n % 10;
    }
    if n < 10 {
      assert s == [DigitChar(n)];
    }
  }

  /**
   * `v[key]` for a value that is neither `undefined` nor `null` (reading a
   * property of those throws). Prototype properties other than `length` of
   * strings and arrays are not modelled.
   */
  function Get(v: Value, key: string): (r: Value)
    requires !v.Undefined? && !v.Null?
    ensures v.Str? && key == "length" ==> r == Num(|v.s|)
    ensures v.Arr? && key == "length" ==> r == Num(|v.items|)
    ensures v.Arr? && key == "0" ==> r == if |v.items| > 0 then v.items[0] else Undefined
    ensures v.Str? && key == "0" ==> r == if |v.s| > 0 then Str([v.s[0]]) else Undefined
    ensures v.Obj? && (forall i :: 0 <= i < |v.entries| ==> v.entries[i].0 != key) ==> r == Undefined
    ensures v.Num? || v.Bool? ==> r == Undefined
  {
    IndexKeyRoundTrip(0);
    assert NatToString(0) == "0";
    match v
    case Str(s) =>
      if key == "length" then Num(|s|)
      else (match ParseIndex(key)
            case Some(i) => if i < |s| then Str([s[i]]) else Undefined
            case None => Undefined)
    case Arr(items) =>
      if key == "length" then Num(|items|)
      else (match ParseIndex(key)
            case Some(i) => if i < |items| then items[i] else Undefined
            case None => Undefined)
    case Obj(entries) => Lookup(entries, key)
    case _ => Undefined
  }

  /** The value of the first entry with key `key`, `undefined` if there is none. */
  function Lookup(entries: seq<(string, Value)>, key: string): (r: Value)
    ensures (forall i :: 0 <= i < |entries| ==> entries[i].0 != key) ==> r == Undefined
    ensures forall i :: 0 <= i < |entries| && entries[i].0 == key ==>
      (forall j :: 0 <= j < i ==> entries[j].0 != key) ==> r == entries[i].1
  {
    if |entries| == 0 then Undefined
    else if entries[0].0 == key then entries[0].1
    else Lookup(entries[1..], key)
  }

  predicate DistinctKeys(entries: seq<(string, Value)>) {
    forall i, j :: 0 <= i < j < |entries| ==> entries[i].0 != entries[j].0
  }

  /** `Object.keys(v)` for an array or an object. */
  function Keys(v: Value): (ks: seq<string>)
    requires v.Arr? || v.Obj?
    ensures v.Arr? ==> |ks| == |v.items|
    ensures v.Obj? ==> |ks| == |v.entries|
  {
    if v.Arr? then seq(|v.items|, i requires 0 <= i < |v.items| => NatToString(i))
    else seq(|v.entries|, i requires 0 <= i < |v.entries| => v.entries[i].0)
  }

  /** Reading `v[k]` for each key `k` of `Object.keys(v)` visits the elements or entry values in order. */
  lemma GetKeys(v: Value, i: nat)
    requires v.Arr? || (v.Obj? && DistinctKeys(v.entries))
    requires i < |Keys(v)|
    ensures Get(v, Keys(v)[i]) == if v.Arr? then v.items[i] else v.entries[i].1
  {
    if v.Arr? {
      IndexKeyRoundTrip(i);
      assert Keys(v)[i] != "length";
    }
  }

  lemma NumberKeyRoundTrip(v: Value)
    ensures v.Num? && v.n >= 0 ==> ParseIndex(IntToString(v.n)) == Some(v.n)
  {
    if v.Num? && v.n >= 0 {
      IndexKeyRoundTrip(v.n);
    }
  }

  /** `String(v)`; an array is written as its elements joined with commas. */
  function ToJsString(v: Value): (r: string)
    ensures v.Str? ==> r == v.s
    ensures v.Num? && v.n >= 0 ==> ParseIndex(r) == Some(v.n)
    ensures v.Arr? && |v.items| == 1 ==> r == ElementString(v.items[0])
    ensures v.Arr? && |v.items| == 0 ==> r == ""
    decreases v, 0
  {
    NumberKeyRoundTrip(v);
    match v
    case Undefined => "undefined"
    case Null => "null"
    case Bool(b) => if b then "true" else "false"
    case Num(n) => IntToString(n)
    case Str(s) => s
    case Arr(items) => Strings.Join(seq(|items|, i requires 0 <= i < |items| => ElementString(items[i])), ",")
    case Obj(_) => "[object Object]"
  }

  /** How `join` writes one element: `null` and `undefined` become empty. */
  function ElementString(v: Value): string
    decreases v, 1
  {
    if v.Undefined? || v.Null? then "" else ToJsString(v)
  }

  /** `items.join(sep)` */
  function JoinValues(items: seq<Value>, sep: string): string {
    Strings.Join(seq(|items|, i requires 0 <= i < |items| => ElementString(items[i])), sep)
  }

  /** Joining strings writes them unchanged. */
  lemma JoinStrings(strs: seq<string>, sep: string)
    ensures JoinValues(seq(|strs|, i requires 0 <= i < |strs| => Str(strs[i])), sep) == Strings.Join(strs, sep)
  {
    var vs := seq(|strs|, i requires 0 <= i < |strs| => Str(strs[i]));
    forall i | 0 <= i < |vs| ensures ElementString(vs[i]) == strs[i] {
      assert vs[i] == Str(strs[i]);
    }
    assert seq(|vs|, i requires 0 <= i < |vs| => ElementString(vs[i])) == strs;
  }
}
