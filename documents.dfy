/** Documents, field values and the field-level operations the quiz API relies on:
    JavaScript's `+ 1` on a stored counter, `Array.prototype.includes` on a stored
    list, and Firestore's merge update with its `arrayUnion` sentinel. */
module Documents {

  datatype Option<T> = None | Some(value: T)

  /** A field value as the API stores it. `NaN` is JavaScript's not-a-number,
      which Firestore stores like any other number; `Time` is a Firestore timestamp. */
  datatype Value =
    | Str(text: string)
    | Bool(flag: bool)
    | Num(n: int)
    | NaN
    | Time(stamp: int)
    | StrList(items: seq<string>)

  /** A document: its fields by name (the id is not one of them). */
  type Doc = map<string, Value>

  /** A collection: documents by id. */
  type Coll = map<string, Doc>

  /** Reading `doc.k` in JavaScript: `undefined` when the field is absent. */
  function Field(d: Doc, k: string): Option<Value>
  {
    if k in d then Some(d[k]) else None
  }

  /** JavaScript's `v + 1` for the values a counter field can hold. */
  function PlusOne(v: Option<Value>): (r: Value)
    ensures v.Some? && v.value.Num? ==> r == Num(v.value.n + 1)
    ensures v.None? ==> r == NaN
  {
    match v
    case Some(Num(n)) => Num(n + 1)
    case Some(Bool(b)) => Num(if b then 2 else 1)
    case Some(Str(s)) => Str(s + "1")
    case _ => NaN
  }

  predicate IsPrefix(x: string, s: string)
  {
    |x| <= |s| && s[..|x|] == x
  }

  /** `s.includes(x)` on a string: substring containment. */
  function Occurs(x: string, s: string): (b: bool)
    ensures b <==> exists i :: 0 <= i <= |s| - |x| && IsPrefix(x, s[i..])
    decreases |s|
  {
    if IsPrefix(x, s) then
      assert IsPrefix(x, s[0..]);
      true
    else if |s| == 0 then
      false
    else
      var b := Occurs(x, s[1..]);
      assert forall i :: 1 <= i <= |s| ==> s[i..] == s[1..][i - 1..];
      b
  }

  /** `v.includes(x)`: `Some(found)` on an array or a string, `None` where
      JavaScript throws a TypeError (absent field, number, boolean, timestamp). */
  function Includes(v: Option<Value>, x: string): (r: Option<bool>)
    ensures r.Some? <==> v.Some? && (v.value.StrList? || v.value.Str?)
    ensures v.Some? && v.value.StrList? ==> r == Some(x in v.value.items)
    ensures v.Some? && v.value.Str? ==> r == Some(Occurs(x, v.value.text))
  {
    match v
    case Some(StrList(l)) => Some(x in l)
    case Some(Str(s)) => Some(Occurs(x, s))
    case _ => None
  }

  /** One field of a Firestore `update` call: a plain value, or the sentinel
      `FieldValue.arrayUnion(elem)`. */
  datatype Write = Put(v: Value) | Union(elem: string)

  /** The fields given to a Firestore `update` call. */
  type Patch = map<string, Write>

  /** The value a field holds after one write. `arrayUnion` appends the element
      to an array that lacks it, and replaces a missing or non-array field by a
      one-element array. */
  function Apply(prior: Option<Value>, w: Write): (r: Value)
    ensures w.Put? ==> r == w.v
    ensures w.Union? ==> r.StrList? && w.elem in r.items
    ensures w.Union? && prior.Some? && prior.value.StrList? ==>
              r.items == if w.elem in prior.value.items then prior.value.items else prior.value.items + [w.elem]
    ensures w.Union? && !(prior.Some? && prior.value.StrList?) ==> r == StrList([w.elem])
  {
    match w
    case Put(v) => v
    case Union(e) =>
      match prior
      case Some(StrList(l)) => StrList(if e in l then l else l + [e])
      case _ => StrList([e])
  }

  /** Firestore's merge update: the patched fields change, every other field
      keeps its value, and no field is removed. */
  function Merge(d: Doc, p: Patch): (r: Doc)
    ensures r.Keys == d.Keys + p.Keys
    ensures forall k :: k in p ==> r[k] == Apply(Field(d, k), p[k])
    ensures forall k :: k in d && k !in p ==> r[k] == d[k]
  {
    map k | k in d.Keys + p.Keys :: if k in p then Apply(Field(d, k), p[k]) else d[k]
  }

  /** A one-field merge is a one-field map update. */
  lemma MergeOne(d: Doc, k: string, w: Write)
    ensures Merge(d, map[k := w]) == d[k := Apply(Field(d, k), w)]
  {
  }

  /** Number of occurrences of `x` in `l`. */
  function Count(l: seq<string>, x: string): (n: nat)
    ensures n == 0 <==> x !in l
  {
    if l == [] then 0 else (if l[0] == x then 1 else 0) + Count(l[1..], x)
  }

  lemma {:induction false} CountAppend(l: seq<string>, x: string, y: string)
    ensures Count(l + [y], x) == Count(l, x) + (if y == x then 1 else 0)
  {
    if l == [] {
      assert [y][1..] == [];
    } else {
      assert (l + [y])[1..] == l[1..] + [y];
      CountAppend(l[1..], x, y);
    }
  }
}
