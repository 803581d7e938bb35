/** The untyped JavaScript values that the job records, bus messages and UI arguments
    arrive as. Numbers are integral (floating point is not modelled). An object's
    properties are taken to have distinct keys, listed in the order Object.keys reports
    them (integer-like keys first, in ascending order, then the others in insertion order). */
module JsValue {

  datatype Js =
    | Undefined
    | Null
    | Bool(b: bool)
    | Num(n: int)
    | Str(s: string)
    | Arr(items: seq<Js>)
    | Obj(props: seq<Prop>)
    | Func                  // a function value; only its type is observable here

  datatype Prop = Prop(key: string, value: Js)

  /** The value stored under key among props, or undefined when no property has that key. */
  function Lookup(props: seq<Prop>, key: string): (r: Js)
    ensures r != Undefined ==> exists k :: 0 <= k < |props| && props[k].key == key && props[k].value == r
  {
    if |props| == 0 then Undefined
    else if props[0].key == key then props[0].value
    else
      var r := Lookup(props[1..], key);
      assert r != Undefined ==> exists k :: 1 <= k < |props| && props[k].key == key && props[k].value == r by {
        if r != Undefined {
          var k :| 0 <= k < |props[1..]| && props[1..][k].key == key && props[1..][k].value == r;
          assert props[k + 1] == props[1..][k];
        }
      }
      r
  }

  /** The value of the first property named key, when the keys before it start differently. */
  lemma {:induction false} LookupAt(props: seq<Prop>, i: nat, key: string)
    requires i < |props| && props[i].key == key
    requires |key| > 0
    requires forall k :: 0 <= k < i ==> |props[k].key| > 0 && props[k].key[0] != key[0]
    ensures Lookup(props, key) == props[i].value
    decreases i
  {
    if i > 0 {
      LookupAt(props[1..], i - 1, key);
    }
  }

  /** Properties added after a defined one do not change what a lookup finds. */
  lemma {:induction false} LookupAppend(props: seq<Prop>, extra: seq<Prop>, key: string)
    requires Lookup(props, key) != Undefined
    ensures Lookup(props + extra, key) == Lookup(props, key)
  {
    assert |props| > 0;
    assert (props + extra)[0] == props[0];
    if props[0].key != key {
      assert (props + extra)[1..] == props[1..] + extra;
      LookupAppend(props[1..], extra, key);
    }
  }

  /** Two different keys found among props are two different properties. */
  lemma TwoKeysPresent(props: seq<Prop>, a: string, b: string)
    requires a != b
    requires Lookup(props, a) != Undefined && Lookup(props, b) != Undefined
    ensures |props| >= 2
  {
    var i :| 0 <= i < |props| && props[i].key == a && props[i].value == Lookup(props, a);
    var j :| 0 <= j < |props| && props[j].key == b && props[j].value == Lookup(props, b);
    assert i != j;
  }

  /** Three different keys found among props are three different properties. */
  lemma ThreeKeysPresent(props: seq<Prop>, a: string, b: string, c: string)
    requires a != b && b != c && a != c
    requires Lookup(props, a) != Undefined && Lookup(props, b) != Undefined && Lookup(props, c) != Undefined
    ensures |props| >= 3
  {
    var i :| 0 <= i < |props| && props[i].key == a && props[i].value == Lookup(props, a);
    var j :| 0 <= j < |props| && props[j].key == b && props[j].value == Lookup(props, b);
    var k :| 0 <= k < |props| && props[k].key == c && props[k].value == Lookup(props, c);
    assert i != j && j != k && i != k;
  }

  /** Property access v[key]: undefined unless v is an object holding key. */
  function Get(v: Js, key: string): (r: Js)
    ensures r != Undefined ==> v.Obj?
  {
    if v.Obj? then Lookup(v.props, key) else Undefined
  }

  /** JavaScript truthiness: undefined, null, false, 0 and '' are falsy. */
  predicate Truthy(v: Js) {
    match v
    case Undefined => false
    case Null => false
    case Bool(b) => b
    case Num(n) => n != 0
    case Str(s) => s != ""
    case _ => true
  }

  /** The typeof operator. */
  function TypeOf(v: Js): (t: string)
    ensures t == "object" <==> v.Null? || v.Arr? || v.Obj?
  {
    match v
    case Undefined => "undefined"
    case Null => "object"
    case Bool(_) => "boolean"
    case Num(_) => "number"
    case Str(_) => "string"
    case Arr(_) => "object"
    case Obj(_) => "object"
    case Func => "function"
  }
}
