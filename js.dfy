/** The JavaScript values the front-end helpers work on, with the few operators they use:
    truthiness, property access, strict equality and `typeof`. Numbers are integers. */
module Js {
  import opened Text

  datatype Value =
    | Undefined
    | Null
    | Bool(b: bool)
    | Num(n: int)
    | Str(s: string)
    | Arr(elems: seq<Value>)
    | Obj(props: map<string, Value>)

  /** What `if (v)`, `v && …` and `v || …` test. */
  predicate Truthy(v: Value) {
    match v
    case Undefined => false
    case Null => false
    case Bool(b) => b
    case Num(n) => n != 0
    case Str(s) => s != ""
    case Arr(_) => true
    case Obj(_) => true
  }

  /** `v?.key`: undefined for null and undefined, for a missing property and for the
      properties of values that are not objects. */
  function Get(v: Value, key: string): Value {
    if v.Obj? && key in v.props then v.props[key] else Undefined
  }

  /** `a === b`. Objects and arrays compare by identity, which the model does not track,
      so two composite values are never strictly equal here. */
  predicate StrictEquals(a: Value, b: Value) {
    match a
    case Undefined => b.Undefined?
    case Null => b.Null?
    case Bool(x) => b.Bool? && b.b == x
    case Num(x) => b.Num? && b.n == x
    case Str(x) => b.Str? && b.s == x
    case Arr(_) => false
    case Obj(_) => false
  }

  /** `typeof v === 'object'`. */
  predicate TypeofObject(v: Value) {
    v.Null? || v.Arr? || v.Obj?
  }

  /** Strict equality is plain equality on primitive values and false otherwise. */
  lemma StrictEqualsPrimitive(a: Value, b: Value)
    ensures StrictEquals(a, b) <==> a == b && !a.Arr? && !a.Obj?
  {
  }

  /** The properties "0", "1", ... of the elements of an array or a string. */
  function Indexed(xs: seq<Value>): (r: map<string, Value>)
    ensures forall i :: 0 <= i < |xs| ==> NatToString(i) in r && r[NatToString(i)] == xs[i]
    ensures forall k :: k in r ==> exists i :: 0 <= i < |xs| && k == NatToString(i)
  {
    assert forall i: nat, j: nat :: NatToString(i) == NatToString(j) ==> i == j by {
      forall i: nat, j: nat | NatToString(i) == NatToString(j) ensures i == j {
        NatToStringInjective(i, j);
      }
    }
    map i | 0 <= i < |xs| :: NatToString(i) := xs[i]
  }

  /** The object spread `{...v}`: the own properties of an object, the indexed elements
      of an array, the indexed one-character strings of a string, and none for null,
      undefined, booleans and numbers. */
  function Spread(v: Value): map<string, Value> {
    match v
    case Obj(props) => props
    case Arr(elems) => Indexed(elems)
    case Str(s) => Indexed(seq(|s|, i requires 0 <= i < |s| => Str([s[i]])))
    case _ => map[]
  }

  /** The copy-then-flip of a `Set` held in state: a new set with `id` deleted when it was
      present and added when it was not. */
  function Toggle<T>(s: set<T>, id: T): (r: set<T>)
    ensures id in r <==> id !in s
    ensures r - {id} == s - {id}
  {
    if id in s then s - {id} else s + {id}
  }

  /** Flipping the same id twice restores the set. */
  lemma ToggleTwice<T>(s: set<T>, id: T)
    ensures Toggle(Toggle(s, id), id) == s
  {
  }
}
