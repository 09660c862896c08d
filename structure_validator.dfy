/** The shape validator of the blink (Solana Actions) integration:
    `validateStructure` checks a decoded JSON value against a declarative
    reference and either returns the (parsed) value or throws a
    StructureValidationError. The three references the integration uses
    (`STRUCT_ACTIONS_JSON`, `STRUCT_ACTIONS_GET_RESPONSE`,
    `STRUCT_ACTIONS_POST_RESPONSE`) are constants here.

    `JSON.parse` is the parameter `parse`: `None` stands for a SyntaxError.
    JSON numbers are integers. */
module StructureValidator {
  import opened Wrappers
  import opened JsStrings

  /** A value `JSON.parse` can produce. */
  datatype Json =
    | JNull
    | JBool(b: bool)
    | JNum(n: int)
    | JStr(s: string)
    | JArray(items: seq<Json>)
    | JObject(props: map<string, Json>)

  /** A reference: the array form `[element]` (any length, as written), an
      object form whose fields are listed in `for..in` order, `null`, or a
      missing (`undefined`) `children`. */
  datatype Ref =
    | RefArray(elems: seq<Ref>)
    | RefObject(fields: seq<Field>)
    | RefNull
    | RefUndefined

  datatype Field = Field(key: string, prop: Prop)

  /** A `ReferenceProperty`: `type`, `required` (absent is `false`) and
      `children` (absent is `RefUndefined`). */
  datatype Prop = Prop(kind: string, required: bool, children: Ref)

  /** The message-carrying causes of a throw. `NotAFunction` is the TypeError
      raised when a parsed object has an own key `hasOwnProperty`, which
      shadows the method the validator calls. */
  datatype ValidationError =
    | NotJson
    | TargetNotArray
    | BadArrayReference
    | BadReference
    | TargetNotObject
    | MissingKey(key: string)
    | StructureMismatch(key: string)
    | TypeMismatch(key: string, expected: string, got: string)
    | NotAFunction(key: string)

  type Parser = string -> Option<Json>

  /** JavaScript falsiness of a JSON value: `null`, `false`, `0` and `""`. */
  predicate Falsy(v: Json) {
    v == JNull || v == JBool(false) || v == JNum(0) || v == JStr("")
  }

  /** `Array.isArray(v) ? 'array' : typeof v`. */
  function TypeName(v: Json): string {
    match v
    case JNull => "object"
    case JBool(_) => "boolean"
    case JNum(_) => "number"
    case JStr(_) => "string"
    case JArray(_) => "array"
    case JObject(_) => "object"
  }

  /** `t.hasOwnProperty(key) ? t[key] : <absent>`. An array's own properties
      are its canonical indices and `length`. */
  function OwnProperty(t: Json, key: string): Option<Json> {
    match t
    case JObject(m) => if key in m then Some(m[key]) else None
    case JArray(xs) =>
      if key == "length" then Some(JNum(|xs|))
      else (match ParseIndex(key)
            case Some(i) => if i < |xs| then Some(xs[i]) else None
            case None => None)
    case _ => None
  }

  /** Lines 90-100: a string target is replaced by what it parses to; text
      that does not parse, or parses to a string, is rejected. */
  function Parsed(parse: Parser, target: Json): Result<Json, ValidationError> {
    if target.JStr? then
      match parse(target.s)
      case None => Err(NotJson)
      case Some(v) => if v.JStr? then Err(NotJson) else Ok(v)
    else Ok(target)
  }

  /** The specification of `validateStructure(reference, target)`. */
  function Validate(parse: Parser, reference: Ref, target: Json): (r: Result<Json, ValidationError>)
    ensures r.Ok? ==> Parsed(parse, target).Ok?
    ensures r.Ok? && !reference.RefArray? ==> r.value == Parsed(parse, target).value
    ensures r.Ok? && reference.RefArray? ==>
      Parsed(parse, target).value.JArray? && r.value.JArray? && |r.value.items| == |Parsed(parse, target).value.items|
    decreases reference, 1, 0
  {
    match Parsed(parse, target)
    case Err(e) => Err(e)
    case Ok(t) =>
      if reference.RefArray? then
        if !t.JArray? then Err(TargetNotArray)
        else if |reference.elems| != 1 then Err(BadArrayReference)
        else (match ValidateItems(parse, reference, t.items)
              case Err(e) => Err(e)
              case Ok(vs) => Ok(JArray(vs)))
      else if reference.RefUndefined? then Err(BadReference)
      else if !(t.JArray? || t.JObject?) then Err(TargetNotObject)
      else if reference.RefNull? then Ok(t)
      else (match ValidateFields(parse, reference, |reference.fields|, t)
            case Err(e) => Err(e)
            case Ok(_) => Ok(t))
  }

  /** The validated elements of `items` against the single element of an
      array reference, stopping at the first element that throws. */
  function ValidateItems(parse: Parser, reference: Ref, items: seq<Json>): (r: Result<seq<Json>, ValidationError>)
    requires reference.RefArray? && |reference.elems| == 1
    ensures r.Ok? ==> |r.value| == |items|
    decreases reference, 0, |items|
  {
    if |items| == 0 then Ok([])
    else
      match ValidateItems(parse, reference, items[..|items| - 1])
      case Err(e) => Err(e)
      case Ok(vs) =>
        match Validate(parse, reference.elems[0], items[|items| - 1])
        case Err(e) => Err(e)
        case Ok(v) => Ok(vs + [v])
  }

  /** The first `n` fields of an object reference checked in order. */
  function ValidateFields(parse: Parser, reference: Ref, n: nat, t: Json): Result<(), ValidationError>
    requires reference.RefObject? && n <= |reference.fields|
    decreases reference, 0, n
  {
    if n == 0 then Ok(())
    else
      match ValidateFields(parse, reference, n - 1, t)
      case Err(e) => Err(e)
      case Ok(_) => CheckField(parse, reference, n - 1, t)
  }

  /** One iteration of the `for..in` loop (lines 142-184) for field `i`. */
  function CheckField(parse: Parser, reference: Ref, i: nat, t: Json): Result<(), ValidationError>
    requires reference.RefObject? && i < |reference.fields|
    decreases reference, 0, i
  {
    var f := reference.fields[i];
    if t.JObject? && "hasOwnProperty" in t.props then Err(NotAFunction(f.key))
    else
      match OwnProperty(t, f.key)
      case None => if f.prop.required then Err(MissingKey(f.key)) else Ok(())
      case Some(v) =>
        if !f.prop.required && Falsy(v) then Ok(())
        else if f.prop.kind == "object" then
          if f.prop.children.RefArray? && v.JArray? then Ok(())
          else
            (match Validate(parse, f.prop.children, v)
             case Err(e) => Err(e)
             case Ok(r) => if Falsy(r) then Err(StructureMismatch(f.key)) else Ok(()))
        else if f.prop.kind != TypeName(v) then Err(TypeMismatch(f.key, f.prop.kind, TypeName(v)))
        else Ok(())
  }

  /** `validateStructure` as the source runs it: the target is reassigned
      when parsed, the array case pushes validated elements in a loop and
      the object case walks the reference's keys with early throws. */
  method ValidateStructure(parse: Parser, reference: Ref, target: Json) returns (r: Result<Json, ValidationError>)
    ensures r == Validate(parse, reference, target)
    decreases reference, 1
  {
    var t := target;
    if t.JStr? {
      var parsed := parse(t.s);
      if parsed.None? {
        return Err(NotJson);
      }
      t := parsed.value;
      if t.JStr? {
        return Err(NotJson);
      }
    }
    assert Parsed(parse, target) == Ok(t);

    if reference.RefArray? {
      if !t.JArray? {
        return Err(TargetNotArray);
      }
      if |reference.elems| != 1 {
        return Err(BadArrayReference);
      }
      var validated := ValidateElements(parse, reference, t.items);
      if validated.Err? {
        return Err(validated.error);
      }
      return Ok(JArray(validated.value));
    }

    if reference.RefUndefined? {
      return Err(BadReference);
    }
    if !(t.JArray? || t.JObject?) {
      return Err(TargetNotObject);
    }
    if reference.RefObject? {
      var checked := ValidateKeys(parse, reference, t);
      if checked.Err? {
        return Err(checked.error);
      }
    }
    return Ok(t);
  }

  /** Lines 110-116: each element is validated against the array
      reference's single element and pushed, and the first that throws ends
      the loop. */
  method ValidateElements(parse: Parser, reference: Ref, items: seq<Json>)
    returns (r: Result<seq<Json>, ValidationError>)
    requires reference.RefArray? && |reference.elems| == 1
    ensures r == ValidateItems(parse, reference, items)
    decreases reference, 0
  {
    var item := reference.elems[0];
    var validated: seq<Json> := [];
    var i := 0;
    while i < |items|
      invariant 0 <= i <= |items|
      invariant ValidateItems(parse, reference, items[..i]) == Ok(validated)
    {
      var v := ValidateStructure(parse, item, items[i]);
      assert items[..i + 1][..i] == items[..i];
      if v.Err? {
        assert ValidateItems(parse, reference, items[..i + 1]) == Err(v.error);
        assert items[..i + 1] + items[i + 1..] == items;
        ValidateItemsErrSticky(parse, reference, items[..i + 1], items[i + 1..]);
        return Err(v.error);
      }
      validated := validated + [v.value];
      i := i + 1;
    }
    assert items[..i] == items;
    return Ok(validated);
  }

  /** Lines 142-184: the keys of an object reference are checked in order
      and the first that fails throws. */
  method ValidateKeys(parse: Parser, reference: Ref, t: Json) returns (r: Result<(), ValidationError>)
    requires reference.RefObject?
    ensures r == ValidateFields(parse, reference, |reference.fields|, t)
    decreases reference, 0
  {
    var fields := reference.fields;
    var i := 0;
    while i < |fields|
      invariant 0 <= i <= |fields|
      invariant ValidateFields(parse, reference, i, t) == Ok(())
    {
      var f := fields[i];
      ValidateFieldsErrSticky(parse, reference, i + 1, t);
      ghost var check := CheckField(parse, reference, i, t);
      assert ValidateFields(parse, reference, i + 1, t) == check;
      if t.JObject? && "hasOwnProperty" in t.props {
        return Err(NotAFunction(f.key));
      }
      var value := OwnProperty(t, f.key);
      if value.None? {
        if f.prop.required {
          assert check == Err(MissingKey(f.key));
          return Err(MissingKey(f.key));
        }
        i := i + 1;
        continue;
      }
      var v := value.value;
      if !f.prop.required && Falsy(v) {
        i := i + 1;
        continue;
      }
      if f.prop.kind == "object" {
        if f.prop.children.RefArray? && v.JArray? {
          i := i + 1;
          continue;
        }
        var nested := ValidateStructure(parse, f.prop.children, v);
        if nested.Err? {
          return Err(nested.error);
        }
        if Falsy(nested.value) {
          return Err(StructureMismatch(f.key));
        }
      } else if f.prop.kind != TypeName(v) {
        return Err(TypeMismatch(f.key, f.prop.kind, TypeName(v)));
      }
      i := i + 1;
    }
    return Ok(());
  }

  /** Once an element throws, later elements are never looked at. */
  lemma {:induction false} ValidateItemsErrSticky(parse: Parser, reference: Ref, prefix: seq<Json>, rest: seq<Json>)
    requires reference.RefArray? && |reference.elems| == 1
    requires ValidateItems(parse, reference, prefix).Err?
    ensures ValidateItems(parse, reference, prefix + rest) == ValidateItems(parse, reference, prefix)
    decreases |rest|
  {
    if |rest| == 0 {
      assert prefix + rest == prefix;
    } else {
      var longer := prefix + rest[..|rest| - 1];
      ValidateItemsErrSticky(parse, reference, prefix, rest[..|rest| - 1]);
      assert (prefix + rest)[..|prefix + rest| - 1] == longer;
      assert ValidateItems(parse, reference, longer).Err?;
      assert ValidateItems(parse, reference, prefix + rest) == ValidateItems(parse, reference, longer);
    }
  }

  /** Once a field throws, the fields after it are never looked at. */
  lemma {:induction false} ValidateFieldsErrSticky(parse: Parser, reference: Ref, n: nat, t: Json)
    requires reference.RefObject? && n <= |reference.fields|
    ensures forall m :: n <= m <= |reference.fields| && ValidateFields(parse, reference, n, t).Err? ==>
      ValidateFields(parse, reference, m, t) == ValidateFields(parse, reference, n, t)
    decreases |reference.fields| - n
  {
    if n < |reference.fields| {
      ValidateFieldsErrSticky(parse, reference, n + 1, t);
    }
  }

  // ---------------------------------------------------------------------
  // The three references of the integration (lines 22-77)

  const STRUCT_ACTIONS_JSON: Ref :=
    RefObject([Field("rules", Prop("array", true, RefUndefined))])

  /** The `children` of the `links` entry of the GET response. */
  const LINKS_CHILDREN: Ref :=
    RefObject([Field("actions", Prop("array", true, RefUndefined))])

  const STRUCT_ACTIONS_GET_RESPONSE: Ref :=
    RefObject([
      Field("title", Prop("string", true, RefUndefined)),
      Field("icon", Prop("string", true, RefUndefined)),
      Field("label", Prop("string", true, RefUndefined)),
      Field("description", Prop("string", true, RefUndefined)),
      Field("disabled", Prop("boolean", false, RefUndefined)),
      Field("error", Prop("object", false, RefUndefined)),
      Field("links", Prop("object", false, LINKS_CHILDREN))
    ])

  const STRUCT_ACTIONS_POST_RESPONSE: Ref :=
    RefObject([
      Field("transaction", Prop("string", true, RefUndefined)),
      Field("message", Prop("string", false, RefUndefined))
    ])

  // ---------------------------------------------------------------------
  // Properties of Validate

  /** What `validateStructure` returns is always an array or an object. */
  lemma ValidateOkIsContainer(parse: Parser, reference: Ref, target: Json)
    requires Validate(parse, reference, target).Ok?
    ensures Validate(parse, reference, target).value.JArray? || Validate(parse, reference, target).value.JObject?
    ensures !Falsy(Validate(parse, reference, target).value)
  {
  }

  /** So the `Structure mismatch` throw of lines 170-178 can never happen,
      at any depth: a nested failure is the nested call's own throw. */
  lemma {:induction false} NoStructureMismatch(parse: Parser, reference: Ref, target: Json)
    ensures forall key :: Validate(parse, reference, target) != Err(StructureMismatch(key))
    decreases reference, 1, 0
  {
    match Parsed(parse, target)
    case Err(_) =>
    case Ok(t) =>
      if reference.RefArray? && t.JArray? && |reference.elems| == 1 {
        NoStructureMismatchItems(parse, reference, t.items);
      } else if reference.RefObject? && (t.JArray? || t.JObject?) {
        NoStructureMismatchFields(parse, reference, |reference.fields|, t);
      }
  }

  lemma {:induction false} NoStructureMismatchItems(parse: Parser, reference: Ref, items: seq<Json>)
    requires reference.RefArray? && |reference.elems| == 1
    ensures forall key :: ValidateItems(parse, reference, items) != Err(StructureMismatch(key))
    decreases reference, 0, |items|
  {
    if |items| > 0 {
      NoStructureMismatchItems(parse, reference, items[..|items| - 1]);
      NoStructureMismatch(parse, reference.elems[0], items[|items| - 1]);
    }
  }

  lemma {:induction false} NoStructureMismatchFields(parse: Parser, reference: Ref, n: nat, t: Json)
    requires reference.RefObject? && n <= |reference.fields|
    ensures forall key :: ValidateFields(parse, reference, n, t) != Err(StructureMismatch(key))
    decreases reference, 0, n
  {
    if n > 0 {
      NoStructureMismatchFields(parse, reference, n - 1, t);
      NoStructureMismatchField(parse, reference, n - 1, t);
    }
  }

  lemma {:induction false} NoStructureMismatchField(parse: Parser, reference: Ref, i: nat, t: Json)
    requires reference.RefObject? && i < |reference.fields|
    ensures forall key :: CheckField(parse, reference, i, t) != Err(StructureMismatch(key))
    decreases reference, 0, i
  {
    var f := reference.fields[i];
    match OwnProperty(t, f.key)
    case None =>
    case Some(v) =>
      NoStructureMismatch(parse, f.prop.children, v);
      if Validate(parse, f.prop.children, v).Ok? {
        ValidateOkIsContainer(parse, f.prop.children, v);
      }
  }

  /** Lines 90-100: a string target is parsed first, at every level of the
      recursion; text that does not parse, or parses to a string, throws. */
  lemma StringTargetIsParsed(parse: Parser, reference: Ref, text: string)
    ensures parse(text).None? ==> Validate(parse, reference, JStr(text)) == Err(NotJson)
    ensures parse(text).Some? && parse(text).value.JStr? ==> Validate(parse, reference, JStr(text)) == Err(NotJson)
    ensures parse(text).Some? && !parse(text).value.JStr? ==>
      Validate(parse, reference, JStr(text)) == Validate(parse, reference, parse(text).value)
  {
  }

  /** The array loop of lines 116-118: all elements pass exactly when each
      one passes on its own, the result holds each element's own result in
      order, and a failure is that of the first failing element. */
  lemma {:induction false} ValidateItemsSpec(parse: Parser, reference: Ref, items: seq<Json>)
    requires reference.RefArray? && |reference.elems| == 1
    ensures ValidateItems(parse, reference, items).Ok? <==>
      forall i :: 0 <= i < |items| ==> Validate(parse, reference.elems[0], items[i]).Ok?
    ensures ValidateItems(parse, reference, items).Ok? ==>
      var vs := ValidateItems(parse, reference, items).value;
      |vs| == |items| && forall i :: 0 <= i < |items| ==> Validate(parse, reference.elems[0], items[i]) == Ok(vs[i])
    ensures ValidateItems(parse, reference, items).Err? ==>
      exists i :: 0 <= i < |items| && Validate(parse, reference.elems[0], items[i]) == Err(ValidateItems(parse, reference, items).error)
        && forall j :: 0 <= j < i ==> Validate(parse, reference.elems[0], items[j]).Ok?
    decreases |items|
  {
    if |items| > 0 {
      var prefix := items[..|items| - 1];
      ValidateItemsSpec(parse, reference, prefix);
      assert forall i :: 0 <= i < |prefix| ==> prefix[i] == items[i];
    }
  }

  /** Lines 102-121: an array reference accepts only an array target, must
      have exactly one element (checked after the target), and yields the
      same-length array of the elements' own results. */
  lemma ArrayReference(parse: Parser, reference: Ref, target: Json)
    requires reference.RefArray?
    requires Parsed(parse, target).Ok?
    ensures var t := Parsed(parse, target).value;
      !t.JArray? ==> Validate(parse, reference, target) == Err(TargetNotArray)
    ensures var t := Parsed(parse, target).value;
      t.JArray? && |reference.elems| != 1 ==> Validate(parse, reference, target) == Err(BadArrayReference)
    ensures var t := Parsed(parse, target).value;
      t.JArray? && |reference.elems| == 1 ==>
        (Validate(parse, reference, target).Ok? <==>
          forall i :: 0 <= i < |t.items| ==> Validate(parse, reference.elems[0], t.items[i]).Ok?)
        && (Validate(parse, reference, target).Ok? ==>
          var r := Validate(parse, reference, target).value;
          r.JArray? && |r.items| == |t.items|
          && forall i :: 0 <= i < |t.items| ==> Validate(parse, reference.elems[0], t.items[i]) == Ok(r.items[i]))
  {
    var t := Parsed(parse, target).value;
    if t.JArray? && |reference.elems| == 1 {
      ValidateItemsSpec(parse, reference, t.items);
    }
  }

  /** The field loop of lines 141-185: the first `n` fields pass exactly when
      each one passes. */
  lemma {:induction false} ValidateFieldsSpec(parse: Parser, reference: Ref, n: nat, t: Json)
    requires reference.RefObject? && n <= |reference.fields|
    ensures ValidateFields(parse, reference, n, t).Ok? <==>
      forall i :: 0 <= i < n ==> CheckField(parse, reference, i, t).Ok?
    decreases n
  {
    if n > 0 {
      ValidateFieldsSpec(parse, reference, n - 1, t);
      if ValidateFields(parse, reference, n - 1, t).Ok? {
        assert ValidateFields(parse, reference, n, t) == CheckField(parse, reference, n - 1, t);
        if CheckField(parse, reference, n - 1, t).Ok? {
          forall i | 0 <= i < n
            ensures CheckField(parse, reference, i, t).Ok?
          {
            if i < n - 1 {
              assert CheckField(parse, reference, i, t).Ok?;
            }
          }
        }
      } else {
        assert ValidateFields(parse, reference, n, t).Err?;
        assert !(forall i :: 0 <= i < n - 1 ==> CheckField(parse, reference, i, t).Ok?);
      }
    }
  }

  /** The field whose failure stops the loop of lines 141-185: it fails with
      the loop's error, and every field before it passes. */
  function FirstFailure(parse: Parser, reference: Ref, n: nat, t: Json): (i: nat)
    requires reference.RefObject? && n <= |reference.fields|
    requires ValidateFields(parse, reference, n, t).Err?
    ensures i < n && CheckField(parse, reference, i, t) == ValidateFields(parse, reference, n, t)
    ensures forall j :: 0 <= j < i ==> CheckField(parse, reference, j, t).Ok?
    decreases n
  {
    if ValidateFields(parse, reference, n - 1, t).Err? then FirstFailure(parse, reference, n - 1, t)
    else
      ValidateFieldsSpec(parse, reference, n - 1, t);
      n - 1
  }

  /** Lines 123-187: an object reference accepts an array or object target
      exactly when every one of its fields passes; keys absent from the
      reference play no part; on success the (parsed) target itself is
      returned; a failure is that of the first failing field in `for..in`
      order. */
  lemma ObjectReference(parse: Parser, reference: Ref, target: Json)
    requires reference.RefObject?
    requires Parsed(parse, target).Ok?
    ensures var t := Parsed(parse, target).value;
      !(t.JArray? || t.JObject?) ==> Validate(parse, reference, target) == Err(TargetNotObject)
    ensures var t := Parsed(parse, target).value;
      (t.JArray? || t.JObject?) ==>
        (Validate(parse, reference, target).Ok? <==>
          forall i :: 0 <= i < |reference.fields| ==> CheckField(parse, reference, i, t).Ok?)
        && (Validate(parse, reference, target).Ok? ==> Validate(parse, reference, target).value == t)
        && (Validate(parse, reference, target).Err? ==>
          exists i :: 0 <= i < |reference.fields|
            && CheckField(parse, reference, i, t) == Err(Validate(parse, reference, target).error)
            && forall j :: 0 <= j < i ==> CheckField(parse, reference, j, t).Ok?)
  {
    var t := Parsed(parse, target).value;
    if t.JArray? || t.JObject? {
      ValidateFieldsSpec(parse, reference, |reference.fields|, t);
      if Validate(parse, reference, target).Err? {
        var i := FirstFailure(parse, reference, |reference.fields|, t);
        assert CheckField(parse, reference, i, t) == Err(Validate(parse, reference, target).error);
      }
    }
  }

  /** Lines 142-184, one reference key at a time: a missing key throws
      exactly when it is required; a present optional key with a falsy value
      is skipped unchecked; otherwise a non-`object` type must equal the
      runtime type (even for a falsy required value), and an `object` type
      is skipped when both `children` and the value are arrays and is else
      validated recursively against `children`. A parsed object with an own
      `hasOwnProperty` key makes the lookup itself throw. */
  lemma CheckFieldCases(parse: Parser, reference: Ref, i: nat, t: Json)
    requires reference.RefObject? && i < |reference.fields|
    ensures t.JObject? && "hasOwnProperty" in t.props ==>
      CheckField(parse, reference, i, t) == Err(NotAFunction(reference.fields[i].key))
    ensures var f := reference.fields[i]; var v := OwnProperty(t, f.key);
      !(t.JObject? && "hasOwnProperty" in t.props) ==>
        && (v.None? ==> (CheckField(parse, reference, i, t).Ok? <==> !f.prop.required))
        && (v.Some? && !f.prop.required && Falsy(v.value) ==> CheckField(parse, reference, i, t).Ok?)
        && (v.Some? && (f.prop.required || !Falsy(v.value)) && f.prop.kind != "object" ==>
              (CheckField(parse, reference, i, t).Ok? <==> f.prop.kind == TypeName(v.value)))
        && (v.Some? && (f.prop.required || !Falsy(v.value)) && f.prop.kind == "object" ==>
              (CheckField(parse, reference, i, t).Ok? <==>
                (f.prop.children.RefArray? && v.value.JArray?) || Validate(parse, f.prop.children, v.value).Ok?))
  {
    var f := reference.fields[i];
    var v := OwnProperty(t, f.key);
    if v.Some? && Validate(parse, f.prop.children, v.value).Ok? {
      ValidateOkIsContainer(parse, f.prop.children, v.value);
    }
  }

  /** A missing `children` fails whatever the target, so an `object`-typed
      key without `children` (such as `error`) throws whenever it is present
      and truthy. */
  lemma UndefinedChildrenAlwaysFail(parse: Parser, target: Json)
    ensures Validate(parse, RefUndefined, target).Err?
  {
  }

  /** Two object targets that agree on the reference's keys (and on having
      an own `hasOwnProperty`) get the same verdict: extra keys are ignored. */
  predicate AgreeOnReferenceKeys(reference: Ref, m1: map<string, Json>, m2: map<string, Json>)
    requires reference.RefObject?
  {
    && ("hasOwnProperty" in m1 <==> "hasOwnProperty" in m2)
    && forall i :: 0 <= i < |reference.fields| ==>
         (reference.fields[i].key in m1 <==> reference.fields[i].key in m2)
         && (reference.fields[i].key in m1 ==> m1[reference.fields[i].key] == m2[reference.fields[i].key])
  }

  lemma {:induction false} ExtraKeysIgnoredFields(parse: Parser, reference: Ref, n: nat, m1: map<string, Json>, m2: map<string, Json>)
    requires reference.RefObject? && n <= |reference.fields|
    requires AgreeOnReferenceKeys(reference, m1, m2)
    ensures ValidateFields(parse, reference, n, JObject(m1)) == ValidateFields(parse, reference, n, JObject(m2))
    decreases n
  {
    if n > 0 {
      ExtraKeysIgnoredFields(parse, reference, n - 1, m1, m2);
      var k := reference.fields[n - 1].key;
      assert OwnProperty(JObject(m1), k) == OwnProperty(JObject(m2), k);
    }
  }

  lemma ExtraKeysIgnored(parse: Parser, reference: Ref, m1: map<string, Json>, m2: map<string, Json>)
    requires reference.RefObject?
    requires AgreeOnReferenceKeys(reference, m1, m2)
    ensures Validate(parse, reference, JObject(m1)).Ok? <==> Validate(parse, reference, JObject(m2)).Ok?
    ensures Validate(parse, reference, JObject(m1)).Err? ==>
      Validate(parse, reference, JObject(m1)) == Validate(parse, reference, JObject(m2))
  {
    ExtraKeysIgnoredFields(parse, reference, |reference.fields|, m1, m2);
  }

  /** Validating the result again returns it unchanged. */
  lemma {:induction false} ValidateIdempotent(parse: Parser, reference: Ref, target: Json)
    requires Validate(parse, reference, target).Ok?
    ensures var r := Validate(parse, reference, target).value;
      Validate(parse, reference, r) == Ok(r)
    decreases reference
  {
    var r := Validate(parse, reference, target).value;
    var t := Parsed(parse, target).value;
    ValidateOkIsContainer(parse, reference, target);
    assert Parsed(parse, r) == Ok(r);
    if reference.RefArray? {
      var item := reference.elems[0];
      ValidateItemsSpec(parse, reference, t.items);
      var vs := r.items;
      forall i | 0 <= i < |vs| ensures Validate(parse, item, vs[i]) == Ok(vs[i]) {
        ValidateIdempotent(parse, item, t.items[i]);
      }
      ValidateItemsSpec(parse, reference, vs);
      var ws := ValidateItems(parse, reference, vs).value;
      assert forall i :: 0 <= i < |vs| ==> ws[i] == vs[i];
      assert ws == vs;
    } else {
      assert r == t;
    }
  }

  // ---------------------------------------------------------------------
  // What the three references accept

  /** An `actions.json` object passes exactly when it has an array `rules`. */
  lemma ActionsJsonShape(parse: Parser, m: map<string, Json>)
    ensures Validate(parse, STRUCT_ACTIONS_JSON, JObject(m)).Ok? <==>
      "hasOwnProperty" !in m && "rules" in m && m["rules"].JArray?
  {
    ObjectReference(parse, STRUCT_ACTIONS_JSON, JObject(m));
    CheckFieldCases(parse, STRUCT_ACTIONS_JSON, 0, JObject(m));
  }

  /** A POST response passes exactly when `transaction` is a string and a
      truthy `message` is a string. */
  lemma PostResponseShape(parse: Parser, m: map<string, Json>)
    ensures Validate(parse, STRUCT_ACTIONS_POST_RESPONSE, JObject(m)).Ok? <==>
      && "hasOwnProperty" !in m
      && "transaction" in m && m["transaction"].JStr?
      && ("message" in m && !Falsy(m["message"]) ==> m["message"].JStr?)
  {
    var t := JObject(m);
    ObjectReference(parse, STRUCT_ACTIONS_POST_RESPONSE, t);
    CheckFieldCases(parse, STRUCT_ACTIONS_POST_RESPONSE, 0, t);
    CheckFieldCases(parse, STRUCT_ACTIONS_POST_RESPONSE, 1, t);
  }

  /** A required string field of an object target. */
  predicate HasString(m: map<string, Json>, key: string) {
    key in m && m[key].JStr?
  }

  /** A GET response passes exactly when title, icon, label and description
      are strings (so `title: 0` fails), a truthy `disabled` is a boolean
      (`disabled: false` passes unchecked), `error` is absent or falsy (a
      truthy one always fails), and a truthy `links` passes the `links`
      reference (after being parsed if it is a string). */
  lemma GetResponseShape(parse: Parser, m: map<string, Json>)
    ensures Validate(parse, STRUCT_ACTIONS_GET_RESPONSE, JObject(m)).Ok? <==>
      && "hasOwnProperty" !in m
      && HasString(m, "title") && HasString(m, "icon") && HasString(m, "label") && HasString(m, "description")
      && ("disabled" in m && !Falsy(m["disabled"]) ==> m["disabled"].JBool?)
      && ("error" in m ==> Falsy(m["error"]))
      && ("links" in m && !Falsy(m["links"]) ==> Validate(parse, LINKS_CHILDREN, m["links"]).Ok?)
  {
    GetResponseFields(parse, m);
    if "hasOwnProperty" !in m {
      GetResponseStringKeys(parse, m);
      GetResponseOptionalKeys(parse, m);
    }
  }

  /** The GET response passes exactly when each of its seven keys does. */
  lemma GetResponseFields(parse: Parser, m: map<string, Json>)
    ensures var g, t := STRUCT_ACTIONS_GET_RESPONSE, JObject(m);
      Validate(parse, g, t).Ok? <==>
        && "hasOwnProperty" !in m
        && CheckField(parse, g, 0, t).Ok? && CheckField(parse, g, 1, t).Ok?
        && CheckField(parse, g, 2, t).Ok? && CheckField(parse, g, 3, t).Ok?
        && CheckField(parse, g, 4, t).Ok? && CheckField(parse, g, 5, t).Ok?
        && CheckField(parse, g, 6, t).Ok?
  {
    var g, t := STRUCT_ACTIONS_GET_RESPONSE, JObject(m);
    ObjectReference(parse, g, t);
    AllSeven(parse, g, t);
    if "hasOwnProperty" in m {
      CheckFieldCases(parse, g, 0, t);
    }
  }

  /** The first four keys of the GET response must be strings. */
  lemma GetResponseStringKeys(parse: Parser, m: map<string, Json>)
    requires "hasOwnProperty" !in m
    ensures var g, t := STRUCT_ACTIONS_GET_RESPONSE, JObject(m);
      && (CheckField(parse, g, 0, t).Ok? <==> HasString(m, "title"))
      && (CheckField(parse, g, 1, t).Ok? <==> HasString(m, "icon"))
      && (CheckField(parse, g, 2, t).Ok? <==> HasString(m, "label"))
      && (CheckField(parse, g, 3, t).Ok? <==> HasString(m, "description"))
  {
    var g := STRUCT_ACTIONS_GET_RESPONSE;
    TypedField(parse, g, 0, m);
    TypedField(parse, g, 1, m);
    TypedField(parse, g, 2, m);
    TypedField(parse, g, 3, m);
  }

  /** What the three optional keys of the GET response demand. */
  lemma GetResponseOptionalKeys(parse: Parser, m: map<string, Json>)
    requires "hasOwnProperty" !in m
    ensures var g, t := STRUCT_ACTIONS_GET_RESPONSE, JObject(m);
      && (CheckField(parse, g, 4, t).Ok? <==> ("disabled" in m && !Falsy(m["disabled"]) ==> m["disabled"].JBool?))
      && (CheckField(parse, g, 5, t).Ok? <==> ("error" in m ==> Falsy(m["error"])))
      && (CheckField(parse, g, 6, t).Ok? <==>
            ("links" in m && !Falsy(m["links"]) ==> Validate(parse, LINKS_CHILDREN, m["links"]).Ok?))
  {
    var g := STRUCT_ACTIONS_GET_RESPONSE;
    TypedField(parse, g, 4, m);
    OptionalObjectField(parse, g, 5, m);
    OptionalObjectField(parse, g, 6, m);
    if "error" in m && !Falsy(m["error"]) {
      UndefinedChildrenAlwaysFail(parse, m["error"]);
    }
  }

  /** A key whose type is not `object`: when present and checked, its value
      has that type; a required key must be present. */
  lemma TypedField(parse: Parser, reference: Ref, i: nat, m: map<string, Json>)
    requires reference.RefObject? && i < |reference.fields| && "hasOwnProperty" !in m
    requires reference.fields[i].prop.kind != "object"
    ensures var f := reference.fields[i];
      CheckField(parse, reference, i, JObject(m)).Ok? <==>
        && (f.prop.required ==> f.key in m)
        && (f.key in m && (f.prop.required || !Falsy(m[f.key])) ==> TypeName(m[f.key]) == f.prop.kind)
  {
  }

  /** An optional `object`-typed key: when present and truthy, its value
      passes the key's `children`. */
  lemma OptionalObjectField(parse: Parser, reference: Ref, i: nat, m: map<string, Json>)
    requires reference.RefObject? && i < |reference.fields| && "hasOwnProperty" !in m
    requires reference.fields[i].prop.kind == "object" && !reference.fields[i].prop.required
    requires !reference.fields[i].prop.children.RefArray?
    ensures var f := reference.fields[i];
      CheckField(parse, reference, i, JObject(m)).Ok? <==>
        (f.key in m && !Falsy(m[f.key]) ==> Validate(parse, f.prop.children, m[f.key]).Ok?)
  {
    CheckFieldCases(parse, reference, i, JObject(m));
  }

  /** A property of all seven keys of the GET response is one of each. */
  lemma AllSeven(parse: Parser, reference: Ref, t: Json)
    requires reference.RefObject? && |reference.fields| == 7
    ensures (forall i :: 0 <= i < |reference.fields| ==> CheckField(parse, reference, i, t).Ok?) <==>
      && CheckField(parse, reference, 0, t).Ok? && CheckField(parse, reference, 1, t).Ok?
      && CheckField(parse, reference, 2, t).Ok? && CheckField(parse, reference, 3, t).Ok?
      && CheckField(parse, reference, 4, t).Ok? && CheckField(parse, reference, 5, t).Ok?
      && CheckField(parse, reference, 6, t).Ok?
  {
    if && CheckField(parse, reference, 0, t).Ok? && CheckField(parse, reference, 1, t).Ok?
       && CheckField(parse, reference, 2, t).Ok? && CheckField(parse, reference, 3, t).Ok?
       && CheckField(parse, reference, 4, t).Ok? && CheckField(parse, reference, 5, t).Ok?
       && CheckField(parse, reference, 6, t).Ok?
    {
      forall i | 0 <= i < |reference.fields| ensures CheckField(parse, reference, i, t).Ok? {
        assert i == 0 || i == 1 || i == 2 || i == 3 || i == 4 || i == 5 || i == 6;
      }
    }
  }

  /** The `links` object passes exactly when it has an array `actions`. */
  lemma LinksShape(parse: Parser, m: map<string, Json>)
    ensures Validate(parse, LINKS_CHILDREN, JObject(m)).Ok? <==>
      "hasOwnProperty" !in m && "actions" in m && m["actions"].JArray?
  {
    ObjectReference(parse, LINKS_CHILDREN, JObject(m));
    CheckFieldCases(parse, LINKS_CHILDREN, 0, JObject(m));
  }
}
