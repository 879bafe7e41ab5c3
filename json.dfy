/** JavaScript values as the build tool handles them: parsed JSON (plus
    `undefined`), objects as their own properties in insertion order, and the
    few JavaScript operations the tool applies to them (property assignment,
    `Object.keys`, `in`, truthiness, string conversion). */
module Json {
  import opened Wrappers

  /** A JavaScript value as JSON carries it, plus `undefined`; numbers are integers. */
  datatype Value =
    | Undefined
    | Null
    | Bool(b: bool)
    | Num(n: int)
    | Str(s: string)
    | Arr(items: seq<Value>)
    | Obj(props: seq<Prop<Value>>)

  /** One own property of an object. */
  datatype Prop<T> = Prop(key: string, value: T)

  function Keys<T>(ps: seq<Prop<T>>): set<string> {
    set i | 0 <= i < |ps| :: ps[i].key
  }

  /** An object never has two own properties with the same key. */
  ghost predicate DistinctKeys<T>(ps: seq<Prop<T>>) {
    forall i, j :: 0 <= i < j < |ps| ==> ps[i].key != ps[j].key
  }

  /** Where own property `k` sits, or -1. */
  function IndexOf<T>(ps: seq<Prop<T>>, k: string): (i: int)
    ensures -1 <= i < |ps|
    ensures 0 <= i ==> ps[i].key == k && forall j :: 0 <= j < i ==> ps[j].key != k
    ensures i < 0 <==> k !in Keys(ps)
  {
    if ps == [] then -1
    else if ps[0].key == k then 0
    else
      var i := IndexOf(ps[1..], k);
      assert k in Keys(ps[1..]) ==> k in Keys(ps) by {
        if k in Keys(ps[1..]) { var j :| 0 <= j < |ps[1..]| && ps[1..][j].key == k; assert ps[j + 1].key == k; }
      }
      assert k in Keys(ps) && ps[0].key != k ==> k in Keys(ps[1..]) by {
        if k in Keys(ps) && ps[0].key != k { var j :| 0 <= j < |ps| && ps[j].key == k; assert ps[1..][j - 1].key == k; }
      }
      if i < 0 then -1 else i + 1
  }

  /** `o[k]` for an own property `k`. */
  function Get<T>(ps: seq<Prop<T>>, k: string): (r: Option<T>)
    ensures r.Some? <==> k in Keys(ps)
  {
    var i := IndexOf(ps, k);
    if i < 0 then None else Some(ps[i].value)
  }

  /** `o[k] = v`: an existing property keeps its place and takes the new value; a
      new one is appended. */
  function Assign<T>(ps: seq<Prop<T>>, k: string, v: T): seq<Prop<T>> {
    var i := IndexOf(ps, k);
    if i < 0 then ps + [Prop(k, v)] else ps[i := Prop(k, v)]
  }

  /** The assignments `o[u.key] = u.value` for the updates `us`, in order. */
  function AssignAll<T>(ps: seq<Prop<T>>, us: seq<Prop<T>>): seq<Prop<T>> {
    if us == [] then ps
    else Assign(AssignAll(ps, us[..|us| - 1]), us[|us| - 1].key, us[|us| - 1].value)
  }

  /** The value the last update of key `k` in `us` writes, if any. */
  function LastWrite<T>(us: seq<Prop<T>>, k: string): (r: Option<T>)
    ensures r.Some? <==> k in Keys(us)
  {
    if us == [] then None
    else if us[|us| - 1].key == k then Some(us[|us| - 1].value)
    else
      var r := LastWrite(us[..|us| - 1], k);
      assert Keys(us) == Keys(us[..|us| - 1]) + {us[|us| - 1].key} by {
        KeysSnoc(us[..|us| - 1], us[|us| - 1]);
        assert us == us[..|us| - 1] + [us[|us| - 1]];
      }
      r
  }

  lemma KeysSnoc<T>(ps: seq<Prop<T>>, p: Prop<T>)
    ensures Keys(ps + [p]) == Keys(ps) + {p.key}
  {
    var qs := ps + [p];
    forall k | k in Keys(qs) ensures k in Keys(ps) + {p.key} {
      var i :| 0 <= i < |qs| && qs[i].key == k;
      if i < |ps| { assert ps[i].key == k; }
    }
    forall k | k in Keys(ps) ensures k in Keys(qs) {
      var i :| 0 <= i < |ps| && ps[i].key == k;
      assert qs[i].key == k;
    }
    assert qs[|ps|].key == p.key;
  }

  /** Assignment reads back: the assigned key has the new value, every other key
      its old one; keys stay distinct and the key set gains `k`. */
  lemma {:induction false} AssignGet<T>(ps: seq<Prop<T>>, k: string, v: T, k': string)
    requires DistinctKeys(ps)
    ensures DistinctKeys(Assign(ps, k, v))
    ensures Keys(Assign(ps, k, v)) == Keys(ps) + {k}
    ensures Get(Assign(ps, k, v), k') == if k' == k then Some(v) else Get(ps, k')
  {
    var i := IndexOf(ps, k);
    var r := Assign(ps, k, v);
    if i < 0 {
      KeysSnoc(ps, Prop(k, v));
      assert r[|ps|].key == k;
      var j := IndexOf(r, k');
      if k' == k {
        assert j == |ps|;
      } else if 0 <= j {
        assert r[j] == ps[j];
        assert IndexOf(ps, k') == j;
      }
    } else {
      assert Keys(r) == Keys(ps) by {
        forall x | x in Keys(r) ensures x in Keys(ps) {
          var m :| 0 <= m < |r| && r[m].key == x;
          assert ps[m].key == x;
        }
        forall x | x in Keys(ps) ensures x in Keys(r) {
          var m :| 0 <= m < |ps| && ps[m].key == x;
          assert r[m].key == x;
        }
      }
      var j := IndexOf(r, k');
      if 0 <= j && j != i {
        assert r[j] == ps[j];
        assert IndexOf(ps, k') == j;
      } else if j < 0 {
        assert IndexOf(ps, k') < 0;
      }
    }
  }

  /** Last writer wins: after the updates `us`, a key reads as the last update of it,
      or as before when no update names it; the keys are the old ones and the
      updated ones, still distinct. */
  lemma {:induction false} AssignAllGet<T>(ps: seq<Prop<T>>, us: seq<Prop<T>>, k: string)
    requires DistinctKeys(ps)
    ensures DistinctKeys(AssignAll(ps, us))
    ensures Keys(AssignAll(ps, us)) == Keys(ps) + Keys(us)
    ensures Get(AssignAll(ps, us), k) == if k in Keys(us) then LastWrite(us, k) else Get(ps, k)
  {
    if us != [] {
      var init, u := us[..|us| - 1], us[|us| - 1];
      assert us == init + [u];
      KeysSnoc(init, u);
      AssignAllGet(ps, init, k);
      AssignGet(AssignAll(ps, init), u.key, u.value, k);
      AssignAllGet(ps, init, u.key);
    }
  }

  /** Updates with distinct keys, applied to an empty object, are that object. */
  lemma {:induction false} AssignAllFresh<T>(us: seq<Prop<T>>)
    requires DistinctKeys(us)
    ensures AssignAll([], us) == us
  {
    if us != [] {
      var init, u := us[..|us| - 1], us[|us| - 1];
      AssignAllFresh(init);
      assert u.key !in Keys(init) by {
        forall j | 0 <= j < |init| ensures init[j].key != u.key { assert init[j] == us[j]; }
      }
      assert us == init + [u];
    }
  }

  /** JavaScript truthiness. */
  predicate Truthy(v: Value) {
    match v
    case Undefined => false
    case Null => false
    case Bool(b) => b
    case Num(n) => n != 0
    case Str(s) => s != ""
    case Arr(_) => true
    case Obj(_) => true
  }

  /** The decimal digits of `n`. */
  function NatToString(n: nat): (s: string)
    ensures |s| >= 1 && forall i :: 0 <= i < |s| ==> '0' <= s[i] <= '9'
  {
    if n < 10 then [Digit(n)] else NatToString(n / 10) + [Digit(n % 10)]
  }

  function Digit(d: nat): (c: char)
    requires d < 10
    ensures '0' <= c <= '9'
  {
    ['0', '1', '2', '3', '4', '5', '6', '7', '8', '9'][d]
  }

  /** The number a string of decimal digits stands for. */
  function ParseNat(s: string): nat
    requires forall i :: 0 <= i < |s| ==> '0' <= s[i] <= '9'
  {
    if s == [] then 0 else 10 * ParseNat(s[..|s| - 1]) + (s[|s| - 1] as int - '0' as int)
  }

  /** Reading the digits back gives the number: `NatToString` is injective. */
  lemma {:induction false} ParseNatToString(n: nat)
    ensures ParseNat(NatToString(n)) == n
  {
    if n >= 10 {
      var s := NatToString(n);
      assert s[..|s| - 1] == NatToString(n / 10);
      ParseNatToString(n / 10);
    }
  }

  /** `String(v)` for what `value + ext` concatenates. */
  function ToStr(v: Value): string {
    match v
    case Undefined => "undefined"
    case Null => "null"
    case Bool(b) => if b then "true" else "false"
    case Num(n) => if n < 0 then "-" + NatToString(-n) else NatToString(n)
    case Str(s) => s
    case Arr(items) => JoinItems(items)
    case Obj(_) => "[object Object]"
  }

  /** `items.join(',')`, where `null` and `undefined` elements print as nothing. */
  function JoinItems(items: seq<Value>): string
    decreases items
  {
    if items == [] then ""
    else
      var last := items[|items| - 1];
      var text := if last.Null? || last.Undefined? then "" else ToStr(last);
      if |items| == 1 then text else JoinItems(items[..|items| - 1]) + "," + text
  }

  /** `typeof v === 'object'`: `null`, arrays and objects. */
  predicate IsObject(v: Value) {
    v.Null? || v.Arr? || v.Obj?
  }

  /** The number of nodes in a value; it orders the recursions over children. */
  function Size(v: Value): nat
    decreases v
  {
    match v
    case Arr(items) => 1 + ItemsSize(items)
    case Obj(ps) => 1 + PropsSize(ps)
    case _ => 1
  }

  function ItemsSize(items: seq<Value>): nat
    decreases items
  {
    if items == [] then 0 else ItemsSize(items[..|items| - 1]) + Size(items[|items| - 1])
  }

  function PropsSize(ps: seq<Prop<Value>>): nat
    decreases ps
  {
    if ps == [] then 0 else PropsSize(ps[..|ps| - 1]) + Size(ps[|ps| - 1].value)
  }

  /** The nodes under the `typeof 'object'` values of `ps`: what a recursion that
      descends only into those can still visit. */
  function Weight(ps: seq<Prop<Value>>): nat {
    if ps == [] then 0
    else Weight(ps[..|ps| - 1]) + (if IsObject(ps[|ps| - 1].value) then Size(ps[|ps| - 1].value) else 0)
  }

  lemma {:induction false} PropsSizeBounds(ps: seq<Prop<Value>>, i: int)
    requires 0 <= i < |ps|
    ensures Size(ps[i].value) <= PropsSize(ps)
    ensures Weight(ps) <= PropsSize(ps)
  {
    WeightBound(ps);
    var n := |ps| - 1;
    if i < n {
      PropsSizeBounds(ps[..n], i);
    }
  }

  lemma {:induction false} WeightBound(ps: seq<Prop<Value>>)
    ensures Weight(ps) <= PropsSize(ps)
  {
    if ps != [] {
      WeightBound(ps[..|ps| - 1]);
    }
  }

  lemma {:induction false} WeightChild(ps: seq<Prop<Value>>, i: int)
    requires 0 <= i < |ps| && IsObject(ps[i].value)
    ensures Size(ps[i].value) <= Weight(ps)
  {
    var n := |ps| - 1;
    if i < n {
      WeightChild(ps[..n], i);
    }
  }

  lemma {:induction false} IndexPropsSize(items: seq<Value>)
    ensures PropsSize(IndexProps(items)) == ItemsSize(items)
  {
    if items != [] {
      var n := |items| - 1;
      assert IndexProps(items)[..n] == IndexProps(items[..n]);
      IndexPropsSize(items[..n]);
    }
  }

  /** The own properties of `v` hold fewer nodes than `v`, counting only those a
      recursion into `typeof 'object'` values descends into. */
  lemma OwnPropsSmaller(v: Value)
    requires OwnProps(v).Ok?
    ensures Weight(OwnProps(v).value) < Size(v)
  {
    var ps := OwnProps(v).value;
    match v
    case Arr(items) =>
      WeightBound(ps);
      IndexPropsSize(items);
    case Obj(_) =>
      WeightBound(ps);
    case Str(s) =>
      NoObjectsWeightless(ps);
    case _ =>
  }

  lemma {:induction false} NoObjectsWeightless(ps: seq<Prop<Value>>)
    requires forall i :: 0 <= i < |ps| ==> !IsObject(ps[i].value)
    ensures Weight(ps) == 0
  {
    if ps != [] {
      NoObjectsWeightless(ps[..|ps| - 1]);
    }
  }

  /** An own property found by `Get` is smaller than its object. */
  lemma GetSmaller(ps: seq<Prop<Value>>, k: string)
    requires Get(ps, k).Some?
    ensures Size(Get(ps, k).value) < Size(Obj(ps))
  {
    var i := IndexOf(ps, k);
    PropsSizeBounds(ps, i);
  }

  /** The error `Object.keys(null)` and `Object.keys(undefined)` throw. */
  const NOT_AN_OBJECT := "TypeError: Cannot convert undefined or null to object"

  /** The own enumerable properties of `v`, as `Object.keys(v).map(k => [k, v[k]])`
      lists them: array and string elements under their indices, none for numbers
      and booleans, and a TypeError for `null` and `undefined`. */
  function OwnProps(v: Value): (r: Result<seq<Prop<Value>>, string>)
    ensures v.Obj? ==> r == Ok(v.props)
    ensures r.Err? <==> v.Null? || v.Undefined?
  {
    match v
    case Undefined => Err(NOT_AN_OBJECT)
    case Null => Err(NOT_AN_OBJECT)
    case Bool(_) => Ok([])
    case Num(_) => Ok([])
    case Str(s) => Ok(seq(|s|, i requires 0 <= i < |s| => Prop(NatToString(i), Str([s[i]]))))
    case Arr(items) => Ok(IndexProps(items))
    case Obj(ps) => Ok(ps)
  }

  function IndexProps(items: seq<Value>): (r: seq<Prop<Value>>)
    ensures |r| == |items| && forall i :: 0 <= i < |r| ==> r[i] == Prop(NatToString(i), items[i])
  {
    seq(|items|, i requires 0 <= i < |items| => Prop(NatToString(i), items[i]))
  }

  /** The error `k in v` throws when `v` is not an object. */
  function NotSearchable(k: string, v: Value): string {
    "TypeError: Cannot use 'in' operator to search for '" + k + "' in " + ToStr(v)
  }

  /** `k in v` followed by `v[k]`: the own property `k` of an object or array (none
      if absent), and a TypeError for a primitive. An array's own properties are its
      elements, under their indices, and its `length`. */
  function Member(v: Value, k: string): (r: Result<Option<Value>, string>)
    ensures v.Obj? ==> r == Ok(Get(v.props, k))
    ensures v.Arr? && k == "length" ==> r == Ok(Some(Num(|v.items|)))
    ensures r.Err? <==> !(v.Obj? || v.Arr?)
  {
    match v
    case Obj(ps) => Ok(Get(ps, k))
    case Arr(items) => if k == "length" then Ok(Some(Num(|items|))) else Ok(Get(IndexProps(items), k))
    case _ => Err(NotSearchable(k, v))
  }
}
