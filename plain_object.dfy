/**
 * The tally as the handler writes it: `result` is created with `{}`, a
 * plain JavaScript object whose prototype is Object.prototype. A read
 * `result[key]` of a key that is not an own property therefore yields the
 * inherited member of that name, and `result[key] = v` for the key
 * "__proto__" calls the prototype setter instead of creating a property.
 * The model in CategoryCounts treats `result` as a map from keys to counts;
 * this module shows where the two differ.
 */
module PlainObject {
  import opened Wrappers
  import opened JsString
  import opened CategoryCounts

  /** The JavaScript values that reads and `+ 1` on `result` produce. */
  datatype JsValue =
    | Undefined
    | NaN
    | Num(n: int)
    | Str(s: string)
    | NativeFunction(name: string)
    | ObjectPrototype

  /** The own properties of an object, as they are serialised by `res.json`. */
  type Obj = map<string, JsValue>

  /** The member a read finds on Object.prototype when the object has no own property of that name. */
  function Inherited(key: string): JsValue {
    if key == "constructor" then NativeFunction("Object")
    else if key == "__proto__" then ObjectPrototype
    else if IsPrototypeMethod(key) then NativeFunction(key)
    else Undefined
  }

  /** The methods Object.prototype provides. */
  predicate IsPrototypeMethod(key: string) {
    key == "hasOwnProperty" || key == "isPrototypeOf" || key == "propertyIsEnumerable" ||
    key == "toLocaleString" || key == "toString" || key == "valueOf" ||
    key == "__defineGetter__" || key == "__defineSetter__" ||
    key == "__lookupGetter__" || key == "__lookupSetter__"
  }

  predicate IsPrototypeName(key: string) {
    Inherited(key) != Undefined
  }

  /** `obj[key]` */
  function Get(obj: Obj, key: string): JsValue {
    if key in obj then obj[key] else Inherited(key)
  }

  predicate IsTruthy(v: JsValue) {
    match v
    case Undefined => false
    case NaN => false
    case Num(n) => n != 0
    case Str(s) => s != ""
    case NativeFunction(_) => true
    case ObjectPrototype => true
  }

  /** `v || 0` */
  function OrZero(v: JsValue): JsValue {
    if IsTruthy(v) then v else Num(0)
  }

  /** `v + 1`: numeric addition on numbers, string concatenation once either side converts to a string. */
  function PlusOne(v: JsValue): JsValue {
    match v
    case Undefined => NaN
    case NaN => NaN
    case Num(n) => Num(n + 1)
    case Str(s) => Str(s + "1")
    case NativeFunction(name) => Str(NativeSource(name) + "1")
    case ObjectPrototype => Str("[object Object]" + "1")
  }

  /** What a native function converts to as a string. */
  function NativeSource(name: string): string {
    "function " + name + "() { [native code] }"
  }

  /**
   * `obj[key] = v` for a primitive `v`: the "__proto__" setter ignores a
   * value that is not an object, so nothing is stored under that key.
   */
  function Set(obj: Obj, key: string, v: JsValue): Obj {
    if key == "__proto__" then obj else obj[key := v]
  }

  /**
   * `result[key] = (result[key] || 0) + 1` on a plain object: every other
   * property is left as it was, and a key other than "__proto__" becomes an
   * own property.
   */
  function BumpAsWritten(obj: Obj, key: string): (r: Obj)
    ensures key != "__proto__" ==> key in r
    ensures key == "__proto__" ==> r == obj
    ensures forall k :: k != key ==> (k in r <==> k in obj) && (k in r ==> r[k] == obj[k])
  {
    Set(obj, key, PlusOne(OrZero(Get(obj, key))))
  }

  /** The object after the loop has visited `rows`, as written: "__proto__" never becomes an own property. */
  function CountsAsWritten(rows: seq<Row>): (r: Obj)
    ensures "__proto__" !in r
  {
    if rows == [] then map[]
    else
      var before := CountsAsWritten(rows[..|rows| - 1]);
      match KeyOf(rows[|rows| - 1])
      case None => before
      case Some(key) => BumpAsWritten(before, key)
  }

  /** The response body as written: `result['all'] = total` after the loop. */
  function TallyAsWritten(rows: seq<Row>): (r: Obj)
    ensures AllKey in r && r[AllKey] == Num(|rows|)
    ensures "__proto__" !in r
  {
    Set(CountsAsWritten(rows), AllKey, Num(|rows|))
  }

  /** A record of counts as an object whose own properties are numbers. */
  function AsObj(m: map<string, nat>): Obj {
    map k | k in m :: Num(m[k])
  }

  /**
   * Of the names Object.prototype provides, only "constructor" and
   * "__proto__" have no upper-case letter, so only they can be reached
   * with a key the normaliser produces.
   */
  lemma UpperIsNotKey(key: string, i: nat)
    requires i < |key| && IsUpper(key[i])
    ensures !IsKey(key)
  {
    assert key[i] in key;
  }

  lemma PrototypeNamesReachableByKeys(key: string)
    requires IsKey(key) && IsPrototypeName(key)
    ensures key == "constructor" || key == "__proto__"
  {
    if IsPrototypeMethod(key) {
      PrototypeMethodsHaveUpper(key);
    }
  }

  lemma PrototypeMethodsHaveUpper(key: string)
    requires IsPrototypeMethod(key)
    ensures !IsKey(key)
  {
    if key == "hasOwnProperty" || key == "isPrototypeOf" || key == "propertyIsEnumerable" ||
       key == "toLocaleString" || key == "toString" {
      FirstMethodsHaveUpper(key);
    } else if key == "valueOf" {
      UpperIsNotKey(key, 5);
    } else {
      AccessorMethodsHaveUpper(key);
    }
  }

  lemma FirstMethodsHaveUpper(key: string)
    requires key == "hasOwnProperty" || key == "isPrototypeOf" || key == "propertyIsEnumerable" ||
             key == "toLocaleString" || key == "toString"
    ensures !IsKey(key)
  {
    if key == "hasOwnProperty" {
      UpperIsNotKey(key, 3);
    } else if key == "propertyIsEnumerable" {
      UpperIsNotKey(key, 8);
    } else {
      UpperIsNotKey(key, 2);
    }
  }

  lemma AccessorMethodsHaveUpper(key: string)
    requires key == "__defineGetter__" || key == "__defineSetter__" ||
             key == "__lookupGetter__" || key == "__lookupSetter__"
    ensures !IsKey(key)
  {
    UpperIsNotKey(key, 8);
  }

  /**
   * While no row's key is a name Object.prototype provides, the tally as
   * written is the map model: every own property is a number equal to the
   * count the map holds.
   */
  lemma {:induction false} CountsAsWrittenAgree(rows: seq<Row>)
    requires forall i :: 0 <= i < |rows| ==> KeyOf(rows[i]).None? || !IsPrototypeName(KeyOf(rows[i]).value)
    ensures CountsAsWritten(rows) == AsObj(Counts(rows))
  {
    if rows != [] {
      var n := |rows| - 1;
      assert forall i :: 0 <= i < n ==> rows[..n][i] == rows[i];
      CountsAsWrittenAgree(rows[..n]);
      match KeyOf(rows[n])
      case None =>
      case Some(key) =>
        BumpAgrees(Counts(rows[..n]), key);
    }
  }

  /** One step of the loop: for a key Object.prototype does not provide, the object and the map agree. */
  lemma BumpAgrees(m: map<string, nat>, key: string)
    requires !IsPrototypeName(key)
    ensures BumpAsWritten(AsObj(m), key) == AsObj(Bump(m, key))
  {
    var v := (if key in m then m[key] else 0) + 1;
    assert PlusOne(OrZero(Get(AsObj(m), key))) == Num(v);
    assert AsObj(m)[key := Num(v)] == AsObj(m[key := v]);
  }

  lemma TallyAsWrittenAgrees(rows: seq<Row>)
    requires forall i :: 0 <= i < |rows| ==> KeyOf(rows[i]).None? || !IsPrototypeName(KeyOf(rows[i]).value)
    ensures TallyAsWritten(rows) == AsObj(Tally(rows))
  {
    CountsAsWrittenAgree(rows);
  }

  /**
   * A post whose category has the key "__proto__" is dropped from the
   * response, where the map model counts it.
   */
  lemma ProtoCategoryIsDropped(rows: seq<Row>)
    requires Occurrences(rows, "__proto__") > 0
    ensures "__proto__" !in TallyAsWritten(rows)
    ensures "__proto__" in Tally(rows) && Tally(rows)["__proto__"] == Occurrences(rows, "__proto__")
  {
    TallyIsOccurrences(rows, "__proto__");
  }

  /**
   * The first post whose category has the key "constructor" stores a
   * string, the source text of the Object function followed by "1",
   * where the map model stores the count 1.
   */
  lemma ConstructorCountIsAString(row: Row)
    requires KeyOf(row) == Some("constructor")
    ensures TallyAsWritten([row])["constructor"] == Str(NativeSource("Object") + "1")
    ensures Tally([row])["constructor"] == 1
  {
    assert [row][..0] == [];
    assert CountsAsWritten([row]) == BumpAsWritten(map[], "constructor");
    assert Counts([row]) == Bump(map[], "constructor");
  }

  /** The category "Constructor" has the key "constructor". */
  lemma ConstructorLabelExample()
    ensures KeyOf(Row(Some("Constructor"))) == Some("constructor")
  {
    assert "Constructor" == ['C'] + "onstructor";
    CapitalisedWordKey('C', "onstructor");
    assert LowerChar('C') == 'c';
    assert ['c'] + "onstructor" == "constructor";
  }
}
