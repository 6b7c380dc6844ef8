/** The check of tool arguments against a JSON schema. */
module Schema {
  import opened Json

  /** What is wrong; the path that the messages spell out is not modelled. */
  datatype Problem = NotInEnum | WrongType | MissingRequired(name: string) | NotAllowed(name: string)

  const TYPES := {"object", "array", "string", "number", "integer", "boolean", "null"}

  // ----- What a schema asks

  predicate HasType(v: Json, t: string) {
    match t
    case "object" => v.Object?
    case "array" => v.Array?
    case "string" => v.Text?
    case "number" => v.Number?
    case "integer" => v.Number? && v.n == v.n.Floor as real
    case "boolean" => v.Bool?
    case "null" => v.Null?
    case _ => true
  }

  function TypeOf(s: Json): string {
    s.Get("type").AsText()
  }

  predicate EnumOk(v: Json, s: Json) {
    s.Get("enum").Array? ==> v in s.Get("enum").items
  }

  /** The names under `required`; one that is not a string counts as the empty name. */
  function Required(s: Json): (r: set<string>) {
    if s.Get("required").Array? then
      set i | 0 <= i < |s.Get("required").items| :: s.Get("required").items[i].AsText()
    else {}
  }

  function Properties(s: Json): map<string, Json> {
    if s.Get("properties").Object? then s.Get("properties").fields else map[]
  }

  predicate Closed(s: Json) {
    s.Get("additionalProperties") == Bool(false)
  }

  /** A value satisfies a schema: every keyword holds, with the object keywords asked of
      schemas of type object only, and `items` of schemas of type array only. */
  ghost predicate Satisfies(v: Json, s: Json)
    decreases v
  {
    && EnumOk(v, s)
    && HasType(v, TypeOf(s))
    && (TypeOf(s) == "object" ==>
          && Required(s) <= v.fields.Keys
          && (Closed(s) ==> v.fields.Keys <= Properties(s).Keys)
          && forall k :: k in v.fields && k in Properties(s) && Properties(s)[k].Object? ==>
               Satisfies(v.fields[k], Properties(s)[k]))
    && (TypeOf(s) == "array" && s.Get("items").Object? ==>
          forall i :: 0 <= i < |v.items| ==> Satisfies(v.items[i], s.Get("items")))
  }

  // ----- `validateJSONSchema`

  /** The reason is a true one. */
  ghost predicate Explains(v: Json, s: Json, p: Problem) {
    match p
    case NotInEnum => !EnumOk(v, s)
    case WrongType => !HasType(v, TypeOf(s))
    case MissingRequired(n) => TypeOf(s) == "object" && v.Object? && n in Required(s) && n !in v.fields
    case NotAllowed(n) =>
      TypeOf(s) == "object" && v.Object? && Closed(s) && n in v.fields && n !in Properties(s)
  }

  /** The reason is one of the value, or of a part of it. */
  ghost predicate ExplainsWithin(v: Json, s: Json, p: Problem)
    decreases v
  {
    || Explains(v, s, p)
    || (v.Object? && exists k :: k in v.fields && k in Properties(s) && Properties(s)[k].Object?
                                 && ExplainsWithin(v.fields[k], Properties(s)[k], p))
    || (v.Array? && exists i :: 0 <= i < |v.items| && ExplainsWithin(v.items[i], s.Get("items"), p))
  }

  method CheckEnum(v: Json, s: Json) returns (ok: bool)
    ensures ok == EnumOk(v, s)
  {
    if !s.Get("enum").Array? {
      return true;
    }
    var enums := s.Get("enum").items;
    for i := 0 to |enums|
      invariant v !in enums[..i]
    {
      if enums[i] == v {
        return true;
      }
    }
    assert enums[..|enums|] == enums;
    return false;
  }

  method CheckRequired(m: map<string, Json>, s: Json) returns (missing: Option<string>)
    ensures missing.None? <==> Required(s) <= m.Keys
    ensures missing.Some? ==> missing.value in Required(s) && missing.value !in m
  {
    if !s.Get("required").Array? {
      return None;
    }
    var names := s.Get("required").items;
    for i := 0 to |names|
      invariant forall j :: 0 <= j < i ==> names[j].AsText() in m
    {
      if names[i].AsText() !in m {
        return Some(names[i].AsText());
      }
    }
    return None;
  }

  /** The iteration order of the map is arbitrary. */
  method CheckClosed(m: map<string, Json>, s: Json) returns (extra: Option<string>)
    ensures extra.None? <==> (Closed(s) ==> m.Keys <= Properties(s).Keys)
    ensures extra.Some? ==> Closed(s) && extra.value in m && extra.value !in Properties(s)
  {
    if s.Get("additionalProperties") != Bool(false) {
      return None;
    }
    var todo := m.Keys;
    while todo != {}
      invariant todo <= m.Keys && m.Keys - todo <= Properties(s).Keys
    {
      var n :| n in todo;
      if n !in Properties(s) {
        return Some(n);
      }
      todo := todo - {n};
    }
    return None;
  }

  /** Returns no problem exactly when the value satisfies the schema, in whatever order the maps
      are visited; and a problem that is returned is a true one. */
  method ValidateJSONSchema(v: Json, s: Json) returns (p: Option<Problem>)
    ensures p.None? <==> Satisfies(v, s)
    ensures p.Some? ==> ExplainsWithin(v, s, p.value)
    decreases v
  {
    var listed := CheckEnum(v, s);
    if !listed {
      return Some(NotInEnum);
    }
    if !HasType(v, TypeOf(s)) {
      return Some(WrongType);
    }
    match TypeOf(s) {
      case "object" =>
        var missing := CheckRequired(v.fields, s);
        if missing.Some? {
          return Some(MissingRequired(missing.value));
        }
        var extra := CheckClosed(v.fields, s);
        if extra.Some? {
          return Some(NotAllowed(extra.value));
        }
        var props, todo := Properties(s), v.fields.Keys;
        while todo != {}
          invariant todo <= v.fields.Keys
          invariant forall k :: k in v.fields && k !in todo && k in props && props[k].Object? ==>
                      Satisfies(v.fields[k], props[k])
        {
          var n :| n in todo;
          if n in props && props[n].Object? {
            p := ValidateJSONSchema(v.fields[n], props[n]);
            if p.Some? {
              return;
            }
          }
          todo := todo - {n};
        }
      case "array" =>
        if s.Get("items").Object? {
          for i := 0 to |v.items|
            invariant forall j :: 0 <= j < i ==> Satisfies(v.items[j], s.Get("items"))
          {
            p := ValidateJSONSchema(v.items[i], s.Get("items"));
            if p.Some? {
              return;
            }
          }
        }
      case _ =>
    }
    return None;
  }

  /** A value that an enum does not list is refused. */
  lemma EnumRefuses(v: Json, s: Json, items: seq<Json>)
    requires s.Get("enum") == Array(items) && v !in items
    ensures !Satisfies(v, s)
  {
  }

  // ----- The standard

  /** The types of section 6.1.1 of JSON Schema Validation 2020-12; an integer is any number with a
      zero fractional part. */
  predicate StandardHasType(v: Json, name: string) {
    match v
    case Null => name == "null"
    case Bool(_) => name == "boolean"
    case Object(_) => name == "object"
    case Array(_) => name == "array"
    case Text(_) => name == "string"
    case Number(n) => name == "number" || (name == "integer" && n == n.Floor as real)
  }

  /** One type, or a list of them. */
  predicate StandardType(v: Json, t: Json) {
    match t
    case Text(name) => StandardHasType(v, name)
    case Array(names) => exists i :: 0 <= i < |names| && names[i].Text? && StandardHasType(v, names[i].s)
    case _ => true
  }

  /** Section 6.1.2: some member of the list equals the value. */
  predicate StandardEnum(v: Json, list: Json) {
    list.Array? ==> exists i :: 0 <= i < |list.items| && list.items[i] == v
  }

  /** Section 6.5.3: every name of the list names a property of the object. */
  predicate StandardRequired(fields: map<string, Json>, list: Json) {
    list.Array? ==> forall i :: 0 <= i < |list.items| && list.items[i].Text? ==> list.items[i].s in fields
  }

  predicate Names(properties: Json, k: string) {
    properties.Object? && k in properties.fields
  }

  /** Validity after JSON Schema 2020-12, for the keywords the gateway knows: `type`, `enum` and
      `required` (sections 6.1.1, 6.1.2 and 6.5.3 of the validation specification) and the
      applicators `properties`, `additionalProperties` and `items` of the core specification.
      A keyword about objects or arrays asks nothing of other values, and a keyword whose own value
      has the wrong form asks nothing at all. */
  ghost predicate Valid(v: Json, s: Json)
    decreases v, 1
  {
    if s.Bool? then s.b
    else if !s.Object? then true
    else
      && ("type" in s.fields ==> StandardType(v, s.fields["type"]))
      && ("enum" in s.fields ==> StandardEnum(v, s.fields["enum"]))
      && (v.Object? && "required" in s.fields ==> StandardRequired(v.fields, s.fields["required"]))
      && (v.Object? ==> forall k :: k in v.fields ==> PropertyValid(v.fields[k], k, s))
      && (v.Array? && "items" in s.fields ==> forall i :: 0 <= i < |v.items| ==> Valid(v.items[i], s.fields["items"]))
  }

  ghost predicate PropertyValid(v: Json, k: string, s: Json)
    requires s.Object?
    decreases v, 2
  {
    if "properties" in s.fields && Names(s.fields["properties"], k) then Valid(v, s.fields["properties"].fields[k])
    else "additionalProperties" in s.fields ==> Valid(v, s.fields["additionalProperties"])
  }

  // ----- What the check makes of a schema

  /** One known type name. */
  predicate Typed(s: Json) {
    TypeOf(s) in TYPES
  }

  /** Whether the check heeds a keyword: a list under `enum`, one known name under `type`, the
      object keywords under the type `object` only, and a schema under `items` under the type
      `array` only. */
  predicate Heeds(s: Json, keyword: string)
    requires s.Object? && keyword in s.fields
  {
    match keyword
    case "enum" => s.fields["enum"].Array?
    case "type" => Typed(s)
    case "required" => TypeOf(s) == "object" && s.fields["required"].Array?
    case "properties" => TypeOf(s) == "object" && s.fields["properties"].Object?
    case "additionalProperties" => TypeOf(s) == "object" && s.fields["additionalProperties"] == Bool(false)
    case "items" => TypeOf(s) == "array" && s.fields["items"].Object?
    case _ => false
  }

  /** Required names as the check reads them: one that is not a string is the empty name. */
  function ReadNames(items: seq<Json>): (r: seq<Json>)
    ensures |r| == |items| && forall i :: 0 <= i < |r| ==> r[i] == Text(items[i].AsText())
  {
    seq(|items|, i requires 0 <= i < |items| => Text(items[i].AsText()))
  }

  /** The schema that the check goes by: the keywords that it heeds, in the schemas of properties
      and items likewise. A property schema that is not an object allows anything. */
  function Effective(s: Json): Json
    decreases s
  {
    if !s.Object? then Bool(true)
    else
      Object(map k | k in s.fields && Heeds(s, k) ::
        if k == "items" then Effective(s.fields[k])
        else if k == "properties" && s.fields[k].Object? then
          Object(map p | p in s.fields[k].fields :: Effective(s.fields[k].fields[p]))
        else if k == "required" && s.fields[k].Array? then Array(ReadNames(s.fields[k].items))
        else s.fields[k])
  }

  lemma EffectiveFields(s: Json)
    requires s.Object?
    ensures var e := Effective(s);
            && e.Object?
            && (forall k :: k in e.fields <==> k in s.fields && Heeds(s, k))
            && (forall k :: k in e.fields && k !in {"items", "properties", "required"} ==> e.fields[k] == s.fields[k])
            && ("items" in e.fields ==> e.fields["items"] == Effective(s.Get("items")))
            && ("required" in e.fields ==> e.fields["required"] == Array(ReadNames(s.fields["required"].items)))
  {
  }

  lemma EffectiveProperties(s: Json)
    requires s.Object?
    ensures var e := Effective(s);
            "properties" in e.fields ==>
              && e.fields["properties"].Object? && e.fields["properties"].fields.Keys == Properties(s).Keys
              && forall k :: k in Properties(s) ==> e.fields["properties"].fields[k] == Effective(Properties(s)[k])
  {
  }

  /** The heeded type and enum ask what the check asks. */
  lemma SameTypeAndEnum(v: Json, s: Json)
    requires s.Object?
    ensures var e := Effective(s);
            && (("type" in e.fields ==> StandardType(v, e.fields["type"])) <==> HasType(v, TypeOf(s)))
            && (("enum" in e.fields ==> StandardEnum(v, e.fields["enum"])) <==> EnumOk(v, s))
  {
    EffectiveFields(s);
    hide Effective;
    SameType(v, TypeOf(s));
    if s.Get("enum").Array? {
      var items := s.Get("enum").items;
      assert v in items <==> exists i :: 0 <= i < |items| && items[i] == v;
    }
    hide HasType, StandardHasType;
  }

  lemma SameType(v: Json, name: string)
    ensures HasType(v, name) <==> (name in TYPES ==> StandardHasType(v, name))
  {
  }

  lemma SameRequired(v: Json, s: Json)
    requires s.Object? && v.Object? && TypeOf(s) == "object"
    ensures var e := Effective(s);
            ("required" in e.fields ==> StandardRequired(v.fields, e.fields["required"])) <==> Required(s) <= v.fields.Keys
  {
    EffectiveFields(s);
    hide Effective;
    if s.Get("required").Array? {
      var items := s.Get("required").items;
      assert forall i :: 0 <= i < |items| ==> ReadNames(items)[i] == Text(items[i].AsText());
      assert forall i :: 0 <= i < |items| ==> items[i].AsText() in Required(s);
    }
  }

  lemma SameProperty(v: Json, k: string, s: Json)
    requires s.Object? && TypeOf(s) == "object"
    requires k in Properties(s) && Properties(s)[k].Object? ==>
               (Satisfies(v, Properties(s)[k]) <==> Valid(v, Effective(Properties(s)[k])))
    ensures PropertyValid(v, k, Effective(s))
            <==> if k in Properties(s) then Properties(s)[k].Object? ==> Satisfies(v, Properties(s)[k]) else !Closed(s)
  {
    var e := Effective(s);
    EffectiveFields(s);
    EffectiveProperties(s);
    if k in Properties(s) {
      if !Properties(s)[k].Object? {
        AnythingGoes(v, Properties(s)[k]);
      }
    } else if Closed(s) {
      assert e.fields["additionalProperties"] == Bool(false);
    }
    hide Effective, Satisfies;
  }

  lemma AnythingGoes(v: Json, s: Json)
    requires !s.Object?
    ensures Valid(v, Effective(s))
  {
  }

  lemma OnlyObjectKeywords(s: Json)
    requires s.Object? && TypeOf(s) != "object"
    ensures var e := Effective(s);
            "required" !in e.fields && "properties" !in e.fields && "additionalProperties" !in e.fields
  {
    EffectiveFields(s);
  }

  lemma OnlyArrayKeywords(s: Json)
    requires s.Object?
    ensures "items" in Effective(s).fields <==> TypeOf(s) == "array" && s.Get("items").Object?
  {
    EffectiveFields(s);
  }

  lemma ObjectAgrees(v: Json, s: Json)
    requires s.Object? && TypeOf(s) == "object" && v.Object?
    requires forall k :: k in v.fields && k in Properties(s) && Properties(s)[k].Object? ==>
               (Satisfies(v.fields[k], Properties(s)[k]) <==> Valid(v.fields[k], Effective(Properties(s)[k])))
    ensures Satisfies(v, s) <==> Valid(v, Effective(s))
  {
    EffectiveFields(s);
    SameTypeAndEnum(v, s);
    SameRequired(v, s);
    OnlyArrayKeywords(s);
    forall k | k in v.fields
      ensures PropertyValid(v.fields[k], k, Effective(s))
              <==> if k in Properties(s) then Properties(s)[k].Object? ==> Satisfies(v.fields[k], Properties(s)[k])
                   else !Closed(s)
    {
      SameProperty(v.fields[k], k, s);
    }
    hide Effective, PropertyValid, StandardType, StandardEnum, StandardRequired, EnumOk, Heeds;
  }

  /** The check is validity after the standard, of the schema that the check goes by. */
  lemma {:induction false} CheckIsEffectiveValidity(v: Json, s: Json)
    requires s.Object?
    ensures Satisfies(v, s) <==> Valid(v, Effective(s))
    decreases v
  {
    if TypeOf(s) == "object" && v.Object? {
      forall k | k in v.fields && k in Properties(s) && Properties(s)[k].Object?
        ensures Satisfies(v.fields[k], Properties(s)[k]) <==> Valid(v.fields[k], Effective(Properties(s)[k]))
      {
        CheckIsEffectiveValidity(v.fields[k], Properties(s)[k]);
      }
      ObjectAgrees(v, s);
    } else {
      if TypeOf(s) == "array" && v.Array? && s.Get("items").Object? {
        forall i | 0 <= i < |v.items|
          ensures Satisfies(v.items[i], s.Get("items")) <==> Valid(v.items[i], Effective(s.Get("items")))
        {
          CheckIsEffectiveValidity(v.items[i], s.Get("items"));
        }
      }
      OtherAgrees(v, s);
    }
  }

  lemma OtherAgrees(v: Json, s: Json)
    requires s.Object? && !(TypeOf(s) == "object" && v.Object?)
    requires TypeOf(s) == "array" && v.Array? && s.Get("items").Object? ==>
               forall i :: 0 <= i < |v.items| ==>
                 (Satisfies(v.items[i], s.Get("items")) <==> Valid(v.items[i], Effective(s.Get("items"))))
    ensures Satisfies(v, s) <==> Valid(v, Effective(s))
  {
    hide StandardType, StandardEnum, StandardRequired, EnumOk, Heeds, Effective;
    EffectiveFields(s);
    SameTypeAndEnum(v, s);
    if HasType(v, TypeOf(s)) {
      assert TypeOf(s) != "object" && (TypeOf(s) == "array" ==> v.Array?);
      OnlyObjectKeywords(s);
      OnlyArrayKeywords(s);
      hide HasType;
    }
  }

  /** So the check and the standard differ on a value exactly when what the check does not heed
      would have made a difference. */
  lemma DiffersIff(v: Json, s: Json)
    requires s.Object?
    ensures (Satisfies(v, s) <==> Valid(v, s)) <==> (Valid(v, s) <==> Valid(v, Effective(s)))
  {
    CheckIsEffectiveValidity(v, s);
  }

  /** Every keyword is one that the check heeds, in every part of the schema; a part may also be
      `true`, which asks nothing. */
  ghost predicate Guarded(s: Json)
    decreases s
  {
    || s == Bool(true)
    || (&& s.Object?
        && ("type" in s.fields ==> Typed(s))
        && ("required" in s.fields ==> TypeOf(s) == "object" && NamesOnly(s.fields["required"]))
        && ("properties" in s.fields ==>
              && TypeOf(s) == "object" && s.fields["properties"].Object?
              && forall k :: k in s.fields["properties"].fields ==> Guarded(s.fields["properties"].fields[k]))
        && ("additionalProperties" in s.fields ==> TypeOf(s) == "object" && s.fields["additionalProperties"].Bool?)
        && ("items" in s.fields ==> TypeOf(s) == "array" && Guarded(s.fields["items"])))
  }

  predicate NamesOnly(list: Json) {
    list.Array? ==> forall i :: 0 <= i < |list.items| ==> list.items[i].Text?
  }

  /** Nothing is lost of such a schema. */
  lemma {:induction false} GuardedIsEffective(v: Json, s: Json)
    requires Guarded(s)
    ensures Valid(v, s) <==> Valid(v, Effective(s))
    decreases v
  {
    if s.Object? {
      if v.Object? && "properties" in s.fields {
        forall k | k in v.fields && k in s.fields["properties"].fields
          ensures Valid(v.fields[k], s.fields["properties"].fields[k])
                  <==> Valid(v.fields[k], Effective(s.fields["properties"].fields[k]))
        {
          GuardedIsEffective(v.fields[k], s.fields["properties"].fields[k]);
        }
      }
      if v.Array? && "items" in s.fields {
        forall i | 0 <= i < |v.items|
          ensures Valid(v.items[i], s.fields["items"]) <==> Valid(v.items[i], Effective(s.fields["items"]))
        {
          GuardedIsEffective(v.items[i], s.fields["items"]);
        }
      }
      GuardedParts(v, s);
    }
  }

  lemma GuardedParts(v: Json, s: Json)
    requires Guarded(s) && s.Object?
    requires v.Object? && "properties" in s.fields ==>
               forall k :: k in v.fields && k in s.fields["properties"].fields ==>
                 (Valid(v.fields[k], s.fields["properties"].fields[k])
                  <==> Valid(v.fields[k], Effective(s.fields["properties"].fields[k])))
    requires v.Array? && "items" in s.fields ==>
               forall i :: 0 <= i < |v.items| ==>
                 (Valid(v.items[i], s.fields["items"]) <==> Valid(v.items[i], Effective(s.fields["items"])))
    ensures Valid(v, s) <==> Valid(v, Effective(s))
  {
    var e := Effective(s);
    EffectiveFields(s);
    EffectiveProperties(s);
    GuardedTypeAndEnum(v, s);
    GuardedItems(v, s);
    if v.Object? {
      GuardedRequired(v, s);
      forall k | k in v.fields ensures PropertyValid(v.fields[k], k, s) <==> PropertyValid(v.fields[k], k, e) {
        GuardedProperty(v.fields[k], k, s);
      }
    }
    hide Effective, PropertyValid, StandardType, StandardEnum, StandardRequired, Heeds, Guarded;
  }

  lemma GuardedTypeAndEnum(v: Json, s: Json)
    requires Guarded(s) && s.Object?
    ensures var e := Effective(s);
            && (("type" in s.fields ==> StandardType(v, s.fields["type"]))
                <==> ("type" in e.fields ==> StandardType(v, e.fields["type"])))
            && (("enum" in s.fields ==> StandardEnum(v, s.fields["enum"]))
                <==> ("enum" in e.fields ==> StandardEnum(v, e.fields["enum"])))
  {
    EffectiveFields(s);
    hide Effective;
  }

  lemma GuardedRequired(v: Json, s: Json)
    requires Guarded(s) && s.Object? && v.Object?
    ensures var e := Effective(s);
            ("required" in s.fields ==> StandardRequired(v.fields, s.fields["required"]))
            <==> ("required" in e.fields ==> StandardRequired(v.fields, e.fields["required"]))
  {
    EffectiveFields(s);
    hide Effective;
    if "required" in s.fields && s.fields["required"].Array? {
      assert ReadNames(s.fields["required"].items) == s.fields["required"].items;
    }
  }

  lemma GuardedProperty(v: Json, k: string, s: Json)
    requires Guarded(s) && s.Object?
    requires "properties" in s.fields && k in s.fields["properties"].fields ==>
               (Valid(v, s.fields["properties"].fields[k]) <==> Valid(v, Effective(s.fields["properties"].fields[k])))
    ensures PropertyValid(v, k, s) <==> PropertyValid(v, k, Effective(s))
  {
    EffectiveFields(s);
    EffectiveProperties(s);
    hide Effective;
    if "additionalProperties" in s.fields {
      assert s.fields["additionalProperties"] == Bool(true) || s.fields["additionalProperties"] == Bool(false);
    }
  }

  lemma GuardedItems(v: Json, s: Json)
    requires Guarded(s) && s.Object?
    requires v.Array? && "items" in s.fields ==>
               forall i :: 0 <= i < |v.items| ==>
                 (Valid(v.items[i], s.fields["items"]) <==> Valid(v.items[i], Effective(s.fields["items"])))
    ensures v.Array? ==>
              (("items" in s.fields ==> forall i :: 0 <= i < |v.items| ==> Valid(v.items[i], s.fields["items"]))
               <==> ("items" in Effective(s).fields ==>
                       forall i :: 0 <= i < |v.items| ==> Valid(v.items[i], Effective(s).fields["items"])))
  {
    EffectiveFields(s);
    hide Effective;
  }

  /** On guarded schemas the check is the standard's validity. */
  lemma AgreesWithStandard(v: Json, s: Json)
    requires s.Object? && Guarded(s)
    ensures Satisfies(v, s) <==> Valid(v, s)
  {
    CheckIsEffectiveValidity(v, s);
    GuardedIsEffective(v, s);
  }

  /** Without a type, the check ignores what the standard asks. */
  lemma UnguardedDiffers()
    ensures var s := Object(map["required" := Array([Text("city")])]);
            Satisfies(Object(map[]), s) && !Valid(Object(map[]), s)
  {
    var s := Object(map["required" := Array([Text("city")])]);
    var list := s.fields["required"];
    assert list.items[0] == Text("city") && !StandardRequired(map[], list);
  }

  // ----- Tightening

  /** `a` asks at least what `b` asks, keyword by keyword. */
  ghost predicate Tightens(a: Json, b: Json)
    decreases b
  {
    && (b.Get("enum").Array? ==>
          a.Get("enum").Array? && forall x :: x in a.Get("enum").items ==> x in b.Get("enum").items)
    && (TypeOf(b) in TYPES ==> TypeOf(a) == TypeOf(b) || (TypeOf(a) == "integer" && TypeOf(b) == "number"))
    && (TypeOf(b) == "object" ==>
          && Required(b) <= Required(a)
          && (Closed(b) ==> Closed(a) && Properties(a).Keys <= Properties(b).Keys)
          && (b.Get("properties").Object? ==>
                forall k :: k in b.Get("properties").fields && b.Get("properties").fields[k].Object? ==>
                  || (Closed(a) && k !in Properties(a))
                  || (k in Properties(a) && Properties(a)[k].Object?
                      && Tightens(Properties(a)[k], b.fields["properties"].fields[k])))
       )
    && (TypeOf(b) == "array" && b.Get("items").Object? ==>
          a.Get("items").Object? && Tightens(a.Get("items"), b.fields["items"]))
  }

  /** Tightening a schema never enlarges what it accepts. */
  lemma {:induction false} TighteningIsSound(v: Json, a: Json, b: Json)
    requires Tightens(a, b) && Satisfies(v, a)
    ensures Satisfies(v, b)
    decreases v
  {
    if TypeOf(b) == "object" {
      forall k | k in v.fields && k in Properties(b) && Properties(b)[k].Object?
        ensures Satisfies(v.fields[k], Properties(b)[k])
      {
        assert k in Properties(a);
        TighteningIsSound(v.fields[k], Properties(a)[k], Properties(b)[k]);
      }
    } else if TypeOf(b) == "array" && b.Get("items").Object? {
      forall i | 0 <= i < |v.items| ensures Satisfies(v.items[i], b.Get("items")) {
        TighteningIsSound(v.items[i], a.Get("items"), b.Get("items"));
      }
    }
  }
}
