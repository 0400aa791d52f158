/**
 * Flattening a Shopify product's metafields into a dictionary from key to
 * value (`get_metafields`). A metafield whose `value_type` is 'integer' is
 * stored as `int(value)`; every other one is stored as it is. Later
 * metafields overwrite earlier ones with the same key. The list of metafields
 * is an input: fetching it from Shopify is not modelled.
 */
module Metafields {
  import opened Results
  import PyInt

  /** A metafield value as the Shopify library holds it: an integer or a string. */
  datatype Value = IntVal(i: int) | StrVal(s: string)

  /** A metafield record: `m.key`, `m.value_type`, `m.value`. */
  datatype Metafield = Metafield(key: string, valueType: string, value: Value)

  /** The ValueError that `int()` raises, with the literal it rejected. */
  datatype ValueError = ValueError(literal: string)

  const IntegerType := "integer"

  /** `int(v)` on a metafield value: an integer is kept, a string is parsed. */
  function IntOfValue(v: Value): Result<int, ValueError> {
    match v
    case IntVal(n) => Ok(n)
    case StrVal(s) =>
      match PyInt.IntOf(s)
      case Some(n) => Ok(n)
      case None => Err(ValueError(s))
  }

  /** The value stored for one record (the `if`/`else` of the loop body). */
  function Convert(m: Metafield): Result<Value, ValueError> {
    if m.valueType == IntegerType then
      match IntOfValue(m.value)
      case Ok(n) => Ok(IntVal(n))
      case Err(e) => Err(e)
    else
      Ok(m.value)
  }

  /** The dictionary built from `ms` in order, or the first ValueError raised on the way. */
  function Flatten(ms: seq<Metafield>): (r: Result<map<string, Value>, ValueError>)
    ensures r.Ok? ==> forall k :: k in r.value ==>
      exists i :: 0 <= i < |ms| && ms[i].key == k && Convert(ms[i]) == Ok(r.value[k])
  {
    if ms == [] then Ok(map[])
    else
      match Flatten(ms[..|ms| - 1])
      case Err(e) => Err(e)
      case Ok(d) =>
        var m := ms[|ms| - 1];
        match Convert(m)
        case Err(e) => Err(e)
        case Ok(v) => Ok(d[m.key := v])
  }

  function KeysOf(ms: seq<Metafield>): set<string> {
    set i | 0 <= i < |ms| :: ms[i].key
  }

  /** Once a prefix of the records has raised, the whole loop raises the same error. */
  lemma {:induction false} FlattenErrorPersists(ms: seq<Metafield>, n: nat)
    requires n <= |ms| && Flatten(ms[..n]).Err?
    ensures Flatten(ms) == Flatten(ms[..n])
  {
    if n < |ms| {
      var p := ms[..|ms| - 1];
      assert p[..n] == ms[..n];
      FlattenErrorPersists(p, n);
    } else {
      assert ms[..n] == ms;
    }
  }

  /**
   * The loop of `get_metafields`: fill a dictionary one record at a time,
   * raising on the first integer metafield whose value does not parse.
   */
  method GetMetafields(ms: seq<Metafield>) returns (r: Result<map<string, Value>, ValueError>)
    ensures r == Flatten(ms)
    ensures ms == [] ==> r == Ok(map[])
  {
    var d := map[];
    for i := 0 to |ms|
      invariant Flatten(ms[..i]) == Ok(d)
    {
      var m := ms[i];
      var k := m.key;
      var v: Value;
      assert ms[..i + 1][..i] == ms[..i];
      if m.valueType == IntegerType {
        var n := IntOfValue(m.value);
        if n.Err? {
          FlattenErrorPersists(ms, i + 1);
          return Err(n.error);
        }
        v := IntVal(n.value);
      } else {
        v := m.value;
      }
      d := d[k := v];
    }
    assert ms[..|ms|] == ms;
    return Ok(d);
  }

  /** The keys of the dictionary are exactly the keys of the records. */
  lemma {:induction false} FlattenKeys(ms: seq<Metafield>)
    requires Flatten(ms).Ok?
    ensures Flatten(ms).value.Keys == KeysOf(ms)
  {
    if ms != [] {
      var p := ms[..|ms| - 1];
      FlattenKeys(p);
      assert KeysOf(ms) == KeysOf(p) + {ms[|ms| - 1].key} by {
        forall k | k in KeysOf(ms) ensures k in KeysOf(p) + {ms[|ms| - 1].key} {
          var i :| 0 <= i < |ms| && ms[i].key == k;
          if i < |ms| - 1 { assert p[i] == ms[i]; }
        }
        forall k | k in KeysOf(p) ensures k in KeysOf(ms) {
          var i :| 0 <= i < |p| && p[i].key == k;
          assert ms[i] == p[i];
        }
      }
    }
  }

  /** For each key, the stored value is the converted value of the last record with that key. */
  lemma {:induction false} FlattenLastWins(ms: seq<Metafield>, i: nat)
    requires Flatten(ms).Ok?
    requires i < |ms|
    requires forall j :: i < j < |ms| ==> ms[j].key != ms[i].key
    ensures ms[i].key in Flatten(ms).value
    ensures Convert(ms[i]) == Ok(Flatten(ms).value[ms[i].key])
  {
    var p := ms[..|ms| - 1];
    if i < |ms| - 1 {
      assert p[i] == ms[i];
      FlattenLastWins(p, i);
    }
  }

  /** A record typed 'integer' that is the last with its key is stored as the integer its value parses to. */
  lemma {:induction false} IntegerRecordStoredParsed(ms: seq<Metafield>, i: nat)
    requires Flatten(ms).Ok?
    requires i < |ms| && ms[i].valueType == "integer"
    requires forall j :: i < j < |ms| ==> ms[j].key != ms[i].key
    ensures ms[i].key in Flatten(ms).value
    ensures ms[i].value.StrVal? ==>
      PyInt.IntOf(ms[i].value.s).Some? && Flatten(ms).value[ms[i].key] == IntVal(PyInt.IntOf(ms[i].value.s).value)
    ensures ms[i].value.IntVal? ==> Flatten(ms).value[ms[i].key] == ms[i].value
  {
    FlattenLastWins(ms, i);
  }

  /** A record of any other type that is the last with its key is stored with its value unchanged. */
  lemma {:induction false} OtherRecordStoredUnchanged(ms: seq<Metafield>, i: nat)
    requires Flatten(ms).Ok?
    requires i < |ms| && ms[i].valueType != "integer"
    requires forall j :: i < j < |ms| ==> ms[j].key != ms[i].key
    ensures ms[i].key in Flatten(ms).value
    ensures Flatten(ms).value[ms[i].key] == ms[i].value
  {
    FlattenLastWins(ms, i);
  }

  /** A string that `int()` rejects. */
  predicate Unparsable(m: Metafield) {
    m.valueType == IntegerType && m.value.StrVal? && PyInt.IntOf(m.value.s).None?
  }

  /**
   * The call raises exactly when some integer record holds a string that does
   * not parse, and then it raises on the first such record.
   */
  lemma {:induction false} FlattenFails(ms: seq<Metafield>)
    ensures Flatten(ms).Err? <==> exists i :: 0 <= i < |ms| && Unparsable(ms[i])
    ensures Flatten(ms).Err? ==>
      exists i :: 0 <= i < |ms| && Unparsable(ms[i]) && Flatten(ms).error == ValueError(ms[i].value.s) &&
                  forall j :: 0 <= j < i ==> !Unparsable(ms[j])
  {
    if ms != [] {
      var p := ms[..|ms| - 1];
      var last := ms[|ms| - 1];
      FlattenFails(p);
      assert forall i :: 0 <= i < |p| ==> p[i] == ms[i];
      if Flatten(p).Err? {
        var k :| 0 <= k < |p| && Unparsable(p[k]) && Flatten(p).error == ValueError(p[k].value.s) &&
                 forall j :: 0 <= j < k ==> !Unparsable(p[j]);
        assert Unparsable(ms[k]);
      } else if Unparsable(last) {
        assert forall j :: 0 <= j < |ms| - 1 ==> !Unparsable(ms[j]);
      } else {
        assert forall j :: 0 <= j < |ms| ==> !Unparsable(ms[j]) by {
          forall j | 0 <= j < |ms| ensures !Unparsable(ms[j]) {
            if j < |ms| - 1 { assert p[j] == ms[j]; }
          }
        }
      }
    }
  }
}
