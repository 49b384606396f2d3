/** JavaScript values as the relay and the browser clients handle them.
    `Undefined` stands for JavaScript's `undefined`: what a property read
    yields for a missing field. JSON numbers are modelled as integers. */
module Json {

  datatype Option<+T> = None | Some(value: T)

  datatype Value =
    | Undefined
    | Null
    | Bool(b: bool)
    | Num(n: int)
    | Str(s: string)
    | Arr(items: seq<Value>)
    | Obj(fields: map<string, Value>)

  /** The property read `v.key`. Only objects have named properties; on
      every other value (and for a missing key) the read gives `undefined`.
      Reading a property of `null` throws in JavaScript; where the model's
      callers read a field of `null`, the throw ends the handler and nothing
      happens, which is also what `undefined` leads to. */
  function Get(v: Value, key: string): (r: Value)
    ensures r == Undefined <==> !v.Obj? || key !in v.fields || v.fields[key] == Undefined
    ensures v.Obj? && key in v.fields ==> r == v.fields[key]
  {
    if v.Obj? && key in v.fields then v.fields[key] else Undefined
  }

  /** JavaScript truthiness: `undefined`, `null`, `false`, `0` and `""` are falsy. */
  predicate Truthy(v: Value)
    ensures !Truthy(v) <==> v in {Undefined, Null, Bool(false), Num(0), Str("")}
  {
    match v
    case Undefined => false
    case Null => false
    case Bool(b) => b
    case Num(n) => n != 0
    case Str(s) => s != ""
    case _ => true
  }

  /** A value that JSON.parse can produce: no `undefined` anywhere in it. */
  predicate IsJson(v: Value)
  {
    match v
    case Undefined => false
    case Arr(items) => forall i :: 0 <= i < |items| ==> IsJson(items[i])
    case Obj(fields) => forall k :: k in fields ==> IsJson(fields[k])
    case _ => true
  }

  /** What the receiving side parses out of `JSON.stringify(v)`: object fields
      whose value is `undefined` disappear, `undefined` array entries become
      `null`. Every `send(JSON.stringify(m))` of the system delivers `Wire(m)`. */
  function Wire(v: Value): (r: Value)
    ensures r.Arr? <==> v.Arr?
    ensures r.Obj? <==> v.Obj?
    ensures v.Arr? ==> |r.items| == |v.items|
    ensures !v.Arr? && !v.Obj? ==> r == v
    ensures Truthy(r) == Truthy(v)
  {
    match v
    case Arr(items) => Arr(seq(|items|, i requires 0 <= i < |items| =>
                              if items[i] == Undefined then Null else Wire(items[i])))
    case Obj(fields) => Obj(map k | k in fields && fields[k] != Undefined :: Wire(fields[k]))
    case _ => v
  }

  /** Serialising a value that came out of JSON.parse changes nothing. */
  lemma {:induction false} WireKeepsJson(v: Value)
    requires IsJson(v)
    ensures Wire(v) == v
  {
    match v
    case Arr(items) =>
      forall i | 0 <= i < |items| ensures Wire(items[i]) == items[i] {
        WireKeepsJson(items[i]);
      }
      assert Wire(v).items == items;
    case Obj(fields) =>
      forall k | k in fields ensures Wire(fields[k]) == fields[k] {
        WireKeepsJson(fields[k]);
      }
      assert Wire(v).fields == fields;
    case _ =>
  }

  /** Whatever is sent, what arrives is a JSON value (unless nothing at all was sent). */
  lemma {:induction false} WireIsJson(v: Value)
    requires v != Undefined
    ensures IsJson(Wire(v))
  {
    match v
    case Arr(items) =>
      forall i | 0 <= i < |items| && items[i] != Undefined ensures IsJson(Wire(items[i])) {
        WireIsJson(items[i]);
      }
    case Obj(fields) =>
      forall k | k in fields && fields[k] != Undefined ensures IsJson(Wire(fields[k])) {
        WireIsJson(fields[k]);
      }
    case _ =>
  }

  /** Serialising twice is serialising once. */
  lemma WireIdempotent(v: Value)
    requires v != Undefined
    ensures Wire(Wire(v)) == Wire(v)
  {
    WireIsJson(v);
    WireKeepsJson(Wire(v));
  }

  /** A field read on the receiving side: a field survives serialisation
      exactly when its value was not `undefined`. */
  lemma WireGet(fields: map<string, Value>, key: string)
    ensures Get(Wire(Obj(fields)), key) ==
            if key in fields && fields[key] != Undefined then Wire(fields[key]) else Undefined
  {
  }
}
