/**
  The decoder of src/action/tla_typed_value.rs: a TLA+ value dumped as a
  tree of `{"kind": <code>, "object": <payload>}` JSON nodes is turned into
  plain JSON. Scalars pass through, string and model values are replaced by
  their constant when the constant dictionary has one, tuples become arrays,
  records become objects, and sets and functions are decoded element by
  element and handed to the set and map builders of scupt_util.

  The specification is the family of functions `TypedValue`, `Items`,
  `Fields` and `FcnEntries`; the source's own procedures, which push into
  local vectors and maps in loops, are the methods `GetTypedValue`,
  `GetFcnValue`, `GetArray`, `GetTupleValue`, `GetSetValue` and
  `GetRecordValue`, each proved to compute its function.
 */
module TlaTypedValue {

  import opened Results

  type U64 = x: int | 0 <= x < 0x1_0000_0000_0000_0000
  type U32 = x: int | 0 <= x < 0x1_0000_0000

  /** A serde_json number: an unsigned or a negative integer, or a float (never inspected). */
  datatype Number = PosInt(u: U64) | NegInt(i: int) | Float(text: string)

  /**
    A serde_json value. An object's members are listed in the map's own
    iteration order; serde_json's maps have distinct keys.
   */
  datatype Json =
    | Null
    | Bool(b: bool)
    | Num(n: Number)
    | Str(s: string)
    | Array(items: seq<Json>)
    | Object(members: seq<Member>)

  datatype Member = Member(key: string, value: Json)

  /**
    The kind codes of `tla_value_kind`. Their numeric values are not part of
    this model, so they are a parameter of the decoder.
   */
  datatype KindCodes = KindCodes(
    boolValue: U32, intValue: U32, realValue: U32,
    stringValue: U32, modelValue: U32,
    tupleValue: U32,
    setCapValue: U32, setCupValue: U32, setEnumValue: U32,
    setOfFcnsValue: U32, setOfRcdsValue: U32, setOfTuplesValue: U32,
    recordValue: U32,
    fcnRcdValue: U32, fcnLambdaValue: U32)

  /** The arms of the `match` in `get_typed_value`. */
  datatype Family = Scalar | Constant | Tuple | SetOf | Record | Function | Unknown

  function KnownCodes(c: KindCodes): set<U32> {
    {c.boolValue, c.intValue, c.realValue, c.stringValue, c.modelValue, c.tupleValue,
     c.setCapValue, c.setCupValue, c.setEnumValue, c.setOfFcnsValue, c.setOfRcdsValue,
     c.setOfTuplesValue, c.recordValue, c.fcnRcdValue, c.fcnLambdaValue}
  }

  /** The arm a kind code selects; arms are tried in source order, so the first one that lists the code wins. */
  function FamilyOf(c: KindCodes, k: U32): (f: Family)
    ensures f == Unknown <==> k !in KnownCodes(c)
  {
    if k == c.boolValue || k == c.intValue || k == c.realValue then Scalar
    else if k == c.stringValue || k == c.modelValue then Constant
    else if k == c.tupleValue then Tuple
    else if k == c.setCapValue || k == c.setCupValue || k == c.setEnumValue
         || k == c.setOfFcnsValue || k == c.setOfRcdsValue || k == c.setOfTuplesValue then SetOf
    else if k == c.recordValue then Record
    else if k == c.fcnRcdValue || k == c.fcnLambdaValue then Function
    else Unknown
  }

  /**
    What the decoder works with: the kind codes, the constant dictionary, and
    `mt_set_from_value` and `mt_map_from_value`, whose code is not part of
    this model.
   */
  datatype Env = Env(
    codes: KindCodes,
    dict: map<string, Json>,
    mtSet: seq<Json> -> Res<Json>,
    mtMap: seq<(Json, Json)> -> Res<Json>)

  /** The position of the first member with the given key, or |ms| when there is none. */
  function Find(ms: seq<Member>, key: string): (i: nat)
    ensures i <= |ms|
    ensures i < |ms| ==> ms[i].key == key
    ensures forall j :: 0 <= j < i ==> ms[j].key != key
  {
    if ms == [] then 0
    else if ms[0].key == key then 0
    else 1 + Find(ms[1..], key)
  }

  predicate Has(ms: seq<Member>, key: string) {
    Find(ms, key) < |ms|
  }

  /** `Value::as_u64`: only non-negative integers are unsigned. */
  predicate IsU64(j: Json) {
    j.Num? && j.n.PosInt?
  }

  /** A node `get_typed_value` can dispatch on: an object with "kind" and "object", the kind unsigned. */
  predicate WellFormedNode(v: Json) {
    && v.Object?
    && Has(v.members, "kind")
    && Has(v.members, "object")
    && IsU64(v.members[Find(v.members, "kind")].value)
  }

  /** The kind of a well-formed node, after `as u32` keeps its low 32 bits. */
  function KindOf(v: Json): U32
    requires WellFormedNode(v)
  {
    v.members[Find(v.members, "kind")].value.n.u % 0x1_0000_0000
  }

  function ObjectOf(v: Json): Json
    requires WellFormedNode(v)
  {
    v.members[Find(v.members, "object")].value
  }

  // ---------------------------------------------------------------------
  // The specification
  // ---------------------------------------------------------------------

  /** `get_typed_value`. */
  function TypedValue(v: Json, env: Env): Res<Json>
    decreases v, 2
  {
    if !WellFormedNode(v) then Err(NoneOption)
    else
      var obj := v.members[Find(v.members, "object")].value;
      match FamilyOf(env.codes, KindOf(v))
      case Scalar => Ok(obj)
      case Constant =>
        if !obj.Str? then Err(Panic)
        else if obj.s in env.dict then Ok(env.dict[obj.s])
        else Ok(obj)
      case Tuple => TupleValue(obj, env)
      case SetOf => SetValue(obj, env)
      case Record => RecordValue(obj, env)
      case Function => FcnValue(obj, env)
      case Unknown => Err(NoneOption)
  }

  /** Puts decoded elements in front of the outcome of decoding the rest. */
  function Prepend<T>(done: seq<T>, rest: Res<seq<T>>): Res<seq<T>> {
    match rest
    case Ok(xs) => Ok(done + xs)
    case Err(e) => Err(e)
  }

  lemma PrependNothing<T>(rest: Res<seq<T>>)
    ensures Prepend([], rest) == rest
  {
    if rest.Ok? {
      assert [] + rest.value == rest.value;
    }
  }

  lemma PrependTwice<T>(done: seq<T>, x: T, rest: Res<seq<T>>)
    ensures Prepend(done, Prepend([x], rest)) == Prepend(done + [x], rest)
  {
    if rest.Ok? {
      assert done + ([x] + rest.value) == (done + [x]) + rest.value;
    }
  }

  /** The elements of an array decoded in order; the first failure aborts. */
  function Items(items: seq<Json>, env: Env): Res<seq<Json>>
    decreases items
  {
    if items == [] then Ok([])
    else
      match TypedValue(items[0], env)
      case Err(e) => Err(e)
      case Ok(x) => Prepend([x], Items(items[1..], env))
  }

  /** `_get_array`. */
  function ArrayValues(obj: Json, env: Env): Res<seq<Json>>
    decreases obj, 0
  {
    if !obj.Array? then Err(NoneOption) else Items(obj.items, env)
  }

  /** `get_tuple_value`. */
  function TupleValue(obj: Json, env: Env): Res<Json>
    decreases obj, 1
  {
    match ArrayValues(obj, env)
    case Err(e) => Err(e)
    case Ok(xs) => Ok(Array(xs))
  }

  /** `get_set_value`. */
  function SetValue(obj: Json, env: Env): Res<Json>
    decreases obj, 1
  {
    match ArrayValues(obj, env)
    case Err(e) => Err(e)
    case Ok(xs) => env.mtSet(xs)
  }

  /** The members of a record with their values decoded in order; the first failure aborts. */
  function Fields(ms: seq<Member>, env: Env): Res<seq<Member>>
    decreases ms
  {
    if ms == [] then Ok([])
    else
      match TypedValue(ms[0].value, env)
      case Err(e) => Err(e)
      case Ok(x) => Prepend([Member(ms[0].key, x)], Fields(ms[1..], env))
  }

  /** `get_record_value`. */
  function RecordValue(obj: Json, env: Env): Res<Json>
    decreases obj, 1
  {
    if !obj.Object? then Err(NoneOption)
    else
      match Fields(obj.members, env)
      case Err(e) => Err(e)
      case Ok(ms) => Ok(Object(ms))
  }

  /** One entry of a function value: an object with "domain" and "value". */
  predicate WellFormedEntry(e: Json) {
    e.Object? && Has(e.members, "domain") && Has(e.members, "value")
  }

  function DomainOf(e: Json): Json
    requires WellFormedEntry(e)
  {
    e.members[Find(e.members, "domain")].value
  }

  function ImageOf(e: Json): Json
    requires WellFormedEntry(e)
  {
    e.members[Find(e.members, "value")].value
  }

  /** One entry of `get_fcn_value`'s loop: its "domain" and then its "value", decoded. */
  function EntryPair(e: Json, env: Env): Res<(Json, Json)>
    decreases e
  {
    if !WellFormedEntry(e) then Err(NoneOption)
    else
      match TypedValue(e.members[Find(e.members, "domain")].value, env)
      case Err(err) => Err(err)
      case Ok(d) =>
        match TypedValue(e.members[Find(e.members, "value")].value, env)
        case Err(err) => Err(err)
        case Ok(x) => Ok((d, x))
  }

  /** The (domain, value) pairs of a function's entries, decoded in order; the first failure aborts. */
  function FcnEntries(ms: seq<Member>, env: Env): Res<seq<(Json, Json)>>
    decreases ms
  {
    if ms == [] then Ok([])
    else
      match EntryPair(ms[0].value, env)
      case Err(err) => Err(err)
      case Ok(p) => Prepend([p], FcnEntries(ms[1..], env))
  }

  /** `get_fcn_value`. */
  function FcnValue(obj: Json, env: Env): Res<Json>
    decreases obj, 1
  {
    if !obj.Object? then Err(NoneOption)
    else
      match FcnEntries(obj.members, env)
      case Err(e) => Err(e)
      case Ok(ps) => env.mtMap(ps)
  }

  // ---------------------------------------------------------------------
  // Properties of the decoder
  // ---------------------------------------------------------------------

  /** Anything but an object with "kind", "object" and an unsigned kind is refused with `NoneOption`. */
  lemma MalformedNodeFails(v: Json, env: Env)
    requires !WellFormedNode(v)
    ensures TypedValue(v, env) == Err(NoneOption)
  {
  }

  /** A kind code none of the arms lists is refused with `NoneOption`. */
  lemma UnknownKindFails(v: Json, env: Env)
    requires WellFormedNode(v) && KindOf(v) !in KnownCodes(env.codes)
    ensures TypedValue(v, env) == Err(NoneOption)
  {
  }

  /** BOOL, INT and REAL values come back as their payload, untouched. */
  lemma ScalarsPassThrough(v: Json, env: Env)
    requires WellFormedNode(v)
    requires KindOf(v) in {env.codes.boolValue, env.codes.intValue, env.codes.realValue}
    ensures TypedValue(v, env) == Ok(ObjectOf(v))
  {
  }

  /**
    STRING and MODEL values are replaced by the dictionary's constant when
    there is one and otherwise come back unchanged; a payload that is not a
    string panics (`as_str().unwrap()`), unless an earlier arm took the code.
   */
  lemma ConstantsSubstituted(v: Json, env: Env)
    requires WellFormedNode(v) && FamilyOf(env.codes, KindOf(v)) == Constant
    ensures !ObjectOf(v).Str? ==> TypedValue(v, env) == Err(Panic)
    ensures ObjectOf(v).Str? && ObjectOf(v).s in env.dict ==> TypedValue(v, env) == Ok(env.dict[ObjectOf(v).s])
    ensures ObjectOf(v).Str? && ObjectOf(v).s !in env.dict ==> TypedValue(v, env) == Ok(ObjectOf(v))
  {
  }

  /** A node whose "kind" and "object" are its only members. */
  function Node(kind: U64, obj: Json): Json {
    Object([Member("kind", Num(PosInt(kind))), Member("object", obj)])
  }

  /** `as u32` keeps the low 32 bits of the kind: codes that agree modulo 2^32 decode alike. */
  lemma KindReadModulo32(kind: U64, obj: Json, env: Env)
    requires kind + 0x1_0000_0000 < 0x1_0000_0000_0000_0000
    ensures TypedValue(Node(kind + 0x1_0000_0000, obj), env) == TypedValue(Node(kind, obj), env)
  {
    var a, b := Node(kind, obj), Node(kind + 0x1_0000_0000, obj);
    assert Find(a.members, "kind") == 0 && Find(b.members, "kind") == 0;
    assert Find(a.members[1..], "object") == 0 && Find(b.members[1..], "object") == 0;
    assert KindOf(a) == KindOf(b);
  }

  /**
    Outcomes decoded one after another, the first failure aborting: the
    whole succeeds exactly when each one does, and then holds their values
    in order.
   */
  ghost predicate InOrder<T>(rs: seq<Res<T>>, whole: Res<seq<T>>) {
    && (whole.Ok? <==> forall i :: 0 <= i < |rs| ==> rs[i].Ok?)
    && (whole.Ok? ==> |whole.value| == |rs| && forall i :: 0 <= i < |rs| ==> rs[i] == Ok(whole.value[i]))
  }

  /** One more outcome in front keeps the in-order relation. */
  lemma InOrderCons<T>(h: Res<T>, rs: seq<Res<T>>, tail: Res<seq<T>>)
    requires InOrder(rs, tail)
    ensures InOrder([h] + rs, match h case Err(e) => Err(e) case Ok(p) => Prepend([p], tail))
  {
    var all := [h] + rs;
    if h.Ok? && tail.Ok? {
      var vs := [h.value] + tail.value;
      forall i | 0 <= i < |all|
        ensures all[i] == Ok(vs[i])
      {
        if i > 0 {
          assert all[i] == rs[i - 1];
        }
      }
    } else if h.Ok? {
      var j :| 0 <= j < |rs| && rs[j].Err?;
      assert all[j + 1] == rs[j];
    } else {
      assert all[0] == h;
    }
  }

  /** The outcome of each element of an array, in order. */
  function ItemResults(items: seq<Json>, env: Env): (rs: seq<Res<Json>>)
    ensures |rs| == |items|
  {
    if items == [] then [] else [TypedValue(items[0], env)] + ItemResults(items[1..], env)
  }

  lemma {:induction false} ItemResultsAt(items: seq<Json>, env: Env, i: nat)
    requires i < |items|
    ensures ItemResults(items, env)[i] == TypedValue(items[i], env)
  {
    if i > 0 {
      ItemResultsAt(items[1..], env, i - 1);
    }
  }

  lemma {:induction false} ItemResultsInOrder(items: seq<Json>, env: Env)
    ensures InOrder(ItemResults(items, env), Items(items, env))
  {
    if items != [] {
      ItemResultsInOrder(items[1..], env);
      InOrderCons(TypedValue(items[0], env), ItemResults(items[1..], env), Items(items[1..], env));
    }
  }

  /**
    Array elements are decoded in order: the whole succeeds exactly when
    every element does, giving one decoded value per element in the same
    positions.
   */
  lemma ItemsInOrder(items: seq<Json>, env: Env)
    ensures Items(items, env).Ok? <==> forall i :: 0 <= i < |items| ==> TypedValue(items[i], env).Ok?
    ensures Items(items, env).Ok? ==>
              |Items(items, env).value| == |items| &&
              forall i :: 0 <= i < |items| ==> TypedValue(items[i], env) == Ok(Items(items, env).value[i])
  {
    ItemResultsInOrder(items, env);
    forall i | 0 <= i < |items|
      ensures ItemResults(items, env)[i] == TypedValue(items[i], env)
    {
      ItemResultsAt(items, env, i);
    }
  }

  /** The first element that fails decides the error of the whole array; nothing after it is decoded. */
  lemma {:induction false} ItemsFirstFailure(items: seq<Json>, env: Env, j: nat)
    requires j < |items| && TypedValue(items[j], env).Err?
    requires forall i :: 0 <= i < j ==> TypedValue(items[i], env).Ok?
    ensures Items(items, env) == Err(TypedValue(items[j], env).error)
  {
    if j > 0 {
      assert forall i :: 1 <= i < |items| ==> items[i] == items[1..][i - 1];
      ItemsFirstFailure(items[1..], env, j - 1);
    }
  }

  /**
    `get_tuple_value`: a non-array payload is refused with `NoneOption`; an
    array decodes to an array of the same length, element by element.
   */
  lemma TupleDecodesElementwise(obj: Json, env: Env)
    ensures !obj.Array? ==> TupleValue(obj, env) == Err(NoneOption)
    ensures obj.Array? ==>
              (TupleValue(obj, env).Ok? <==> forall i :: 0 <= i < |obj.items| ==> TypedValue(obj.items[i], env).Ok?)
    ensures TupleValue(obj, env).Ok? ==>
              var r := TupleValue(obj, env).value;
              r.Array? && |r.items| == |obj.items| &&
              forall i :: 0 <= i < |obj.items| ==> TypedValue(obj.items[i], env) == Ok(r.items[i])
  {
    if obj.Array? {
      ItemsInOrder(obj.items, env);
    }
  }

  /**
    `get_set_value`: the elements are decoded as for a tuple and the set
    builder gets the decoded elements in order.
   */
  lemma SetDecodesElementwise(obj: Json, env: Env)
    ensures !obj.Array? ==> SetValue(obj, env) == Err(NoneOption)
    ensures obj.Array? && (forall i :: 0 <= i < |obj.items| ==> TypedValue(obj.items[i], env).Ok?) ==>
              exists xs: seq<Json> ::
                && |xs| == |obj.items|
                && (forall i :: 0 <= i < |obj.items| ==> TypedValue(obj.items[i], env) == Ok(xs[i]))
                && SetValue(obj, env) == env.mtSet(xs)
    ensures obj.Array? && (exists i :: 0 <= i < |obj.items| && TypedValue(obj.items[i], env).Err?) ==>
              SetValue(obj, env).Err?
  {
    if obj.Array? {
      ItemsInOrder(obj.items, env);
      var xs := Items(obj.items, env);
      if xs.Ok? {
        assert |xs.value| == |obj.items| &&
               (forall i :: 0 <= i < |obj.items| ==> TypedValue(obj.items[i], env) == Ok(xs.value[i])) &&
               SetValue(obj, env) == env.mtSet(xs.value);
      }
    }
  }

  /** Record members are decoded in order and keep their keys. */
  lemma {:induction false} FieldsInOrder(ms: seq<Member>, env: Env)
    ensures Fields(ms, env).Ok? <==> forall i :: 0 <= i < |ms| ==> TypedValue(ms[i].value, env).Ok?
    ensures Fields(ms, env).Ok? ==>
              |Fields(ms, env).value| == |ms| &&
              forall i :: 0 <= i < |ms| ==>
                Fields(ms, env).value[i].key == ms[i].key &&
                TypedValue(ms[i].value, env) == Ok(Fields(ms, env).value[i].value)
  {
    if ms != [] {
      FieldsInOrder(ms[1..], env);
      var head := TypedValue(ms[0].value, env);
      var tail := Fields(ms[1..], env);
      assert forall i :: 1 <= i < |ms| ==> ms[i] == ms[1..][i - 1];
      if head.Ok? && tail.Ok? {
        assert Fields(ms, env) == Ok([Member(ms[0].key, head.value)] + tail.value);
      } else {
        assert Fields(ms, env).Err?;
      }
    }
  }

  /** The first member whose value fails decides the error of the whole record. */
  lemma {:induction false} FieldsFirstFailure(ms: seq<Member>, env: Env, j: nat)
    requires j < |ms| && TypedValue(ms[j].value, env).Err?
    requires forall i :: 0 <= i < j ==> TypedValue(ms[i].value, env).Ok?
    ensures Fields(ms, env) == Err(TypedValue(ms[j].value, env).error)
  {
    if j > 0 {
      assert forall i :: 1 <= i < |ms| ==> ms[i] == ms[1..][i - 1];
      FieldsFirstFailure(ms[1..], env, j - 1);
    }
  }

  /**
    `get_record_value`: a non-object payload is refused with `NoneOption`;
    an object decodes to an object with exactly the same keys in the same
    order, each value decoded.
   */
  lemma RecordKeepsKeys(obj: Json, env: Env)
    ensures !obj.Object? ==> RecordValue(obj, env) == Err(NoneOption)
    ensures obj.Object? ==>
              (RecordValue(obj, env).Ok? <==> forall i :: 0 <= i < |obj.members| ==> TypedValue(obj.members[i].value, env).Ok?)
    ensures RecordValue(obj, env).Ok? ==>
              var r := RecordValue(obj, env).value;
              r.Object? && |r.members| == |obj.members| &&
              forall i :: 0 <= i < |obj.members| ==>
                r.members[i].key == obj.members[i].key &&
                TypedValue(obj.members[i].value, env) == Ok(r.members[i].value)
  {
    if obj.Object? {
      FieldsInOrder(obj.members, env);
    }
  }

  /**
    One entry: anything but an object with "domain" and "value" is refused
    with `NoneOption`; otherwise the domain is decoded first, and the pair
    is the decoded domain and value when both succeed.
   */
  lemma EntryDecodesBoth(e: Json, env: Env)
    ensures !WellFormedEntry(e) ==> EntryPair(e, env) == Err(NoneOption)
    ensures WellFormedEntry(e) && TypedValue(DomainOf(e), env).Err? ==>
              EntryPair(e, env) == Err(TypedValue(DomainOf(e), env).error)
    ensures WellFormedEntry(e) && TypedValue(DomainOf(e), env).Ok? && TypedValue(ImageOf(e), env).Err? ==>
              EntryPair(e, env) == Err(TypedValue(ImageOf(e), env).error)
    ensures WellFormedEntry(e) && TypedValue(DomainOf(e), env).Ok? && TypedValue(ImageOf(e), env).Ok? ==>
              EntryPair(e, env) == Ok((TypedValue(DomainOf(e), env).value, TypedValue(ImageOf(e), env).value))
  {
  }

  /** The outcome of each entry of a function, in entry order. */
  function EntryResults(ms: seq<Member>, env: Env): (rs: seq<Res<(Json, Json)>>)
    ensures |rs| == |ms|
  {
    if ms == [] then [] else [EntryPair(ms[0].value, env)] + EntryResults(ms[1..], env)
  }

  lemma {:induction false} EntryResultsAt(ms: seq<Member>, env: Env, i: nat)
    requires i < |ms|
    ensures EntryResults(ms, env)[i] == EntryPair(ms[i].value, env)
  {
    if i > 0 {
      EntryResultsAt(ms[1..], env, i - 1);
    }
  }

  lemma {:induction false} EntryResultsInOrder(ms: seq<Member>, env: Env)
    ensures InOrder(EntryResults(ms, env), FcnEntries(ms, env))
  {
    if ms != [] {
      EntryResultsInOrder(ms[1..], env);
      InOrderCons(EntryPair(ms[0].value, env), EntryResults(ms[1..], env), FcnEntries(ms[1..], env));
    }
  }

  /**
    Function entries are decoded in order: all succeed exactly when every
    entry does, giving one (domain, value) pair per entry in entry order.
   */
  lemma FcnEntriesInOrder(ms: seq<Member>, env: Env)
    ensures FcnEntries(ms, env).Ok? <==> forall i :: 0 <= i < |ms| ==> EntryPair(ms[i].value, env).Ok?
    ensures FcnEntries(ms, env).Ok? ==>
              |FcnEntries(ms, env).value| == |ms| &&
              forall i :: 0 <= i < |ms| ==> EntryPair(ms[i].value, env) == Ok(FcnEntries(ms, env).value[i])
  {
    EntryResultsInOrder(ms, env);
    forall i | 0 <= i < |ms|
      ensures EntryResults(ms, env)[i] == EntryPair(ms[i].value, env)
    {
      EntryResultsAt(ms, env, i);
    }
  }

  /** The first entry that fails decides the error of the whole function. */
  lemma {:induction false} FcnEntriesFirstFailure(ms: seq<Member>, env: Env, j: nat)
    requires j < |ms| && EntryPair(ms[j].value, env).Err?
    requires forall i :: 0 <= i < j ==> EntryPair(ms[i].value, env).Ok?
    ensures FcnEntries(ms, env) == Err(EntryPair(ms[j].value, env).error)
  {
    if j > 0 {
      assert forall i :: 1 <= i < |ms| ==> ms[i] == ms[1..][i - 1];
      FcnEntriesFirstFailure(ms[1..], env, j - 1);
    }
  }

  /**
    `get_fcn_value`: a non-object payload is refused with `NoneOption`; an
    object whose entries all decode is handed, as its decoded (domain, value)
    pairs in entry order, to the map builder; otherwise the whole fails.
   */
  lemma FcnDecodesEntries(obj: Json, env: Env)
    ensures !obj.Object? ==> FcnValue(obj, env) == Err(NoneOption)
    ensures obj.Object? && (exists i :: 0 <= i < |obj.members| && EntryPair(obj.members[i].value, env).Err?) ==>
              FcnValue(obj, env).Err?
    ensures obj.Object? && (forall i :: 0 <= i < |obj.members| ==> EntryPair(obj.members[i].value, env).Ok?) ==>
              exists ps: seq<(Json, Json)> ::
                && |ps| == |obj.members|
                && (forall i :: 0 <= i < |obj.members| ==> EntryPair(obj.members[i].value, env) == Ok(ps[i]))
                && FcnValue(obj, env) == env.mtMap(ps)
  {
    if obj.Object? {
      FcnEntriesInOrder(obj.members, env);
      var ps := FcnEntries(obj.members, env);
      if ps.Ok? {
        assert |ps.value| == |obj.members| && FcnValue(obj, env) == env.mtMap(ps.value);
      }
    }
  }

  // ---------------------------------------------------------------------
  // The procedures of the source, proved against the specification
  // ---------------------------------------------------------------------

  method GetTypedValue(v: Json, env: Env) returns (r: Res<Json>)
    ensures r == TypedValue(v, env)
    decreases v, 2
  {
    if !v.Object? {
      return Err(NoneOption);
    }
    var members := v.members;
    var ik := Find(members, "kind");
    if ik == |members| {
      return Err(NoneOption);
    }
    var io := Find(members, "object");
    if io == |members| {
      return Err(NoneOption);
    }
    var kind, obj := members[ik].value, members[io].value;
    if !IsU64(kind) {
      return Err(NoneOption);
    }
    var kindT := kind.n.u % 0x1_0000_0000;
    match FamilyOf(env.codes, kindT) {
      case Scalar =>
        r := Ok(obj);
      case Constant =>
        if !obj.Str? {
          return Err(Panic);
        }
        if obj.s in env.dict {
          r := Ok(env.dict[obj.s]);
        } else {
          r := Ok(obj);
        }
      case Tuple =>
        r := GetTupleValue(obj, env);
      case SetOf =>
        r := GetSetValue(obj, env);
      case Record =>
        r := GetRecordValue(obj, env);
      case Function =>
        r := GetFcnValue(obj, env);
      case Unknown =>
        r := Err(NoneOption);
    }
  }

  method GetFcnValue(value: Json, env: Env) returns (r: Res<Json>)
    ensures r == FcnValue(value, env)
    decreases value, 1
  {
    if !value.Object? {
      return Err(NoneOption);
    }
    var members := value.members;
    var vec: seq<(Json, Json)> := [];
    var i := 0;
    assert members[i..] == members;
    PrependNothing(FcnEntries(members, env));
    while i < |members|
      invariant i <= |members|
      invariant FcnEntries(members, env) == Prepend(vec, FcnEntries(members[i..], env))
    {
      assert members[i..][1..] == members[i + 1..];
      var kv := members[i].value;
      if !kv.Object? {
        return Err(NoneOption);
      }
      var id := Find(kv.members, "domain");
      if id == |kv.members| {
        return Err(NoneOption);
      }
      var iv := Find(kv.members, "value");
      if iv == |kv.members| {
        return Err(NoneOption);
      }
      var domain1 := GetTypedValue(kv.members[id].value, env);
      if domain1.Err? {
        return Err(domain1.error);
      }
      var value1 := GetTypedValue(kv.members[iv].value, env);
      if value1.Err? {
        return Err(value1.error);
      }
      assert EntryPair(kv, env) == Ok((domain1.value, value1.value));
      PrependTwice(vec, (domain1.value, value1.value), FcnEntries(members[i + 1..], env));
      vec := vec + [(domain1.value, value1.value)];
      i := i + 1;
    }
    assert members[i..] == [];
    assert vec + [] == vec;
    r := env.mtMap(vec);
  }

  method GetArray(value: Json, env: Env) returns (r: Res<seq<Json>>)
    ensures r == ArrayValues(value, env)
    decreases value, 0
  {
    if !value.Array? {
      return Err(NoneOption);
    }
    var elems := value.items;
    var vec: seq<Json> := [];
    var i := 0;
    assert elems[i..] == elems;
    PrependNothing(Items(elems, env));
    while i < |elems|
      invariant i <= |elems|
      invariant Items(elems, env) == Prepend(vec, Items(elems[i..], env))
    {
      assert elems[i..][1..] == elems[i + 1..];
      var v1 := GetTypedValue(elems[i], env);
      if v1.Err? {
        return Err(v1.error);
      }
      PrependTwice(vec, v1.value, Items(elems[i + 1..], env));
      vec := vec + [v1.value];
      i := i + 1;
    }
    assert elems[i..] == [];
    assert vec + [] == vec;
    r := Ok(vec);
  }

  method GetTupleValue(value: Json, env: Env) returns (r: Res<Json>)
    ensures r == TupleValue(value, env)
    decreases value, 1
  {
    var decoded := GetArray(value, env);
    if decoded.Err? {
      return Err(decoded.error);
    }
    r := Ok(Array(decoded.value));
  }

  method GetSetValue(value: Json, env: Env) returns (r: Res<Json>)
    ensures r == SetValue(value, env)
    decreases value, 1
  {
    var decoded := GetArray(value, env);
    if decoded.Err? {
      return Err(decoded.error);
    }
    r := env.mtSet(decoded.value);
  }

  method GetRecordValue(value: Json, env: Env) returns (r: Res<Json>)
    ensures r == RecordValue(value, env)
    decreases value, 1
  {
    if !value.Object? {
      return Err(NoneOption);
    }
    var members := value.members;
    var fields1: seq<Member> := [];
    var i := 0;
    assert members[i..] == members;
    PrependNothing(Fields(members, env));
    while i < |members|
      invariant i <= |members|
      invariant Fields(members, env) == Prepend(fields1, Fields(members[i..], env))
    {
      assert members[i..][1..] == members[i + 1..];
      var v1 := GetTypedValue(members[i].value, env);
      if v1.Err? {
        return Err(v1.error);
      }
      PrependTwice(fields1, Member(members[i].key, v1.value), Fields(members[i + 1..], env));
      fields1 := fields1 + [Member(members[i].key, v1.value)];
      i := i + 1;
    }
    assert members[i..] == [];
    assert fields1 + [] == fields1;
    r := Ok(Object(fields1));
  }
}
