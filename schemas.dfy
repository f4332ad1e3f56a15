/** The request-body schemas `userSchema` and `quizSchema`, stated as data
    (per field: type, required or optional, minimum length, default) and read
    by one validate-and-default function. */
module Schemas {
  import opened Documents

  datatype Kind = StringKind | StringArrayKind | BooleanKind | NumberKind | DateKind

  /** The rule declared for one field. */
  datatype Rule = Rule(kind: Kind, required: bool, minLength: nat, default: Option<Value>)

  /** A schema: the rule of every field the body may carry. */
  type Schema = map<string, Rule>

  /** `Joi.string()` refuses the empty string even without `.min(1)`. */
  predicate NonEmptyText(v: Value, minLength: nat)
  {
    v.Str? && |v.text| >= 1 && |v.text| >= minLength
  }

  /** `Joi.array().items(Joi.string())`: an array of non-empty strings. */
  predicate StringArray(v: Value)
  {
    v.StrList? && forall i :: 0 <= i < |v.items| ==> |v.items[i]| >= 1
  }

  /** Whether a present field's value satisfies its rule. */
  predicate Conforms(r: Rule, v: Value)
  {
    match r.kind
    case StringKind => NonEmptyText(v, r.minLength)
    case StringArrayKind => StringArray(v)
    case BooleanKind => v.Bool?
    case NumberKind => v.Num?
    case DateKind => v.Time?
  }

  /** The body has no field outside the schema, every present field conforms,
      and every required field is present. */
  predicate Accepts(s: Schema, body: Doc)
  {
    && body.Keys <= s.Keys
    && (forall k :: k in body ==> Conforms(s[k], body[k]))
    && (forall k :: k in s && s[k].required ==> k in body)
  }

  /** Validates a body and fills the declared defaults of its absent fields;
      `None` is a rejected body (the client error the validator answers with). */
  function Validate(s: Schema, body: Doc): (r: Option<Doc>)
    ensures r.Some? <==> Accepts(s, body)
    ensures r.Some? ==> forall k :: k in r.value <==> k in body || (k in s && s[k].default.Some?)
    ensures r.Some? ==> forall k :: k in body ==> r.value[k] == body[k]
    ensures r.Some? ==> forall k :: k in r.value && k !in body ==> r.value[k] == s[k].default.value
  {
    if Accepts(s, body) then
      Some(body + map k | k in s.Keys - body.Keys && s[k].default.Some? :: s[k].default.value)
    else
      None
  }

  /** Every declared default satisfies its own field's rule. */
  predicate DefaultsConform(s: Schema)
  {
    forall k :: k in s && s[k].default.Some? ==> Conforms(s[k], s[k].default.value)
  }

  /** `userSchema`: `name` is the only required field, and the default `[]`
      of `quizIds` satisfies its own rule. */
  function UserSchema(): (s: Schema)
    ensures s.Keys == {"name", "quizIds"}
    ensures forall k :: k in s ==> (s[k].required <==> k == "name")
    ensures DefaultsConform(s)
  {
    map[
      "name" := Rule(StringKind, true, 0, None),
      "quizIds" := Rule(StringArrayKind, false, 0, Some(StrList([])))
    ]
  }

  /** `quizSchema`; the default of `createdOn`, Firestore's server timestamp,
      is the time `now` at which the write happens. Only `name` is required,
      and every default satisfies its own field's rule. */
  function QuizSchema(now: int): (s: Schema)
    ensures forall k :: k in s ==> (s[k].required <==> k == "name")
    ensures DefaultsConform(s)
  {
    map[
      "name" := Rule(StringKind, true, 1, None),
      "description" := Rule(StringKind, false, 1, None),
      "active" := Rule(BooleanKind, false, 0, Some(Bool(false))),
      "userCount" := Rule(NumberKind, false, 0, Some(Num(0))),
      "createdOn" := Rule(DateKind, false, 0, Some(Time(now)))
    ]
  }

  /** Validating an already validated body returns it unchanged. */
  lemma {:induction false} ValidateIdempotent(s: Schema, body: Doc)
    requires DefaultsConform(s)
    requires Validate(s, body).Some?
    ensures Validate(s, Validate(s, body).value) == Validate(s, body)
  {
    var v := Validate(s, body).value;
    assert Accepts(s, v) by {
      forall k | k in v ensures Conforms(s[k], v[k]) {
        if k !in body {
          assert v[k] == s[k].default.value;
        }
      }
    }
    assert Validate(s, v).value == v;
  }

  /** A user body is accepted exactly when `name` is a non-empty string, a
      present `quizIds` is an array of non-empty strings, and no other field is
      given; the accepted user always has `quizIds`, `[]` when it was absent. */
  lemma UserRules(body: Doc)
    ensures Validate(UserSchema(), body).Some? <==>
              && body.Keys <= {"name", "quizIds"}
              && "name" in body && NonEmptyText(body["name"], 0)
              && ("quizIds" in body ==> StringArray(body["quizIds"]))
    ensures Validate(UserSchema(), body).Some? ==>
              var u := Validate(UserSchema(), body).value;
              && u.Keys == {"name", "quizIds"}
              && u["name"] == body["name"]
              && u["quizIds"] == (if "quizIds" in body then body["quizIds"] else StrList([]))
  {
    if Validate(UserSchema(), body).Some? {
      var u := Validate(UserSchema(), body).value;
      assert "quizIds" in u;
    }
  }

  /** A user without a name, or with an empty one, is rejected. */
  lemma EmptyUserNameRejected(body: Doc)
    requires "name" !in body || body["name"] == Str("")
    ensures Validate(UserSchema(), body) == None
  {
  }

  /** A quiz body is accepted exactly when `name` is a non-empty string, a
      present `description` is a non-empty string, a present `active` a boolean,
      `userCount` a number, `createdOn` a date, and no other field is given. */
  lemma QuizRules(body: Doc, now: int)
    ensures Validate(QuizSchema(now), body).Some? <==>
              && body.Keys <= {"name", "description", "active", "userCount", "createdOn"}
              && "name" in body && NonEmptyText(body["name"], 1)
              && ("description" in body ==> NonEmptyText(body["description"], 1))
              && ("active" in body ==> body["active"].Bool?)
              && ("userCount" in body ==> body["userCount"].Num?)
              && ("createdOn" in body ==> body["createdOn"].Time?)
  {
    var s := QuizSchema(now);
    if Validate(s, body).None? && body.Keys <= s.Keys && "name" in body {
      var k :| k in body && !Conforms(s[k], body[k]);
      assert k in s.Keys;
    }
  }

  /** An accepted quiz carries every defaulted field: absent `active`,
      `userCount` and `createdOn` become `false`, `0` and the write time, and an
      absent `description` stays absent. */
  lemma QuizDefaults(body: Doc, now: int)
    requires Validate(QuizSchema(now), body).Some?
    ensures var q := Validate(QuizSchema(now), body).value;
            && q["active"] == (if "active" in body then body["active"] else Bool(false))
            && q["userCount"] == (if "userCount" in body then body["userCount"] else Num(0))
            && q["createdOn"] == (if "createdOn" in body then body["createdOn"] else Time(now))
            && ("description" in q <==> "description" in body)
            && q["userCount"].Num? && q["createdOn"].Time?
  {
    var s := QuizSchema(now);
    var q := Validate(s, body).value;
    assert s["active"].default == Some(Bool(false));
    assert s["userCount"].default == Some(Num(0));
    assert s["createdOn"].default == Some(Time(now));
    assert s["description"].default == None;
  }
}
