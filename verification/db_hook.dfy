/**
 * `utils/db.js`: the global `beforeValidate` hook that trims every string held by a STRING or TEXT
 * attribute of an instance about to be validated, and stores null for what trims to nothing.
 */
module DbHook {
  import opened Wrappers
  import opened Text

  /** A value held by a model instance. */
  datatype Value = Str(s: string) | Null | Num(n: real) | Bool(b: bool)

  /** An ORM instance: its model's attribute definitions (name to `type.key`, if any) and its data values. */
  class Instance {
    /** `instance.constructor.rawAttributes`; `None` when the instance has no model behind it. */
    var rawAttributes: Option<map<string, Option<string>>>
    var dataValues: map<string, Value>

    constructor (rawAttributes: Option<map<string, Option<string>>>, dataValues: map<string, Value>)
      ensures this.rawAttributes == rawAttributes && this.dataValues == dataValues
    {
      this.rawAttributes := rawAttributes;
      this.dataValues := dataValues;
    }
  }

  /** `['STRING', 'TEXT'].includes(type)`. */
  predicate IsTextType(key: Option<string>)
  {
    key == Some("STRING") || key == Some("TEXT")
  }

  /** What the hook stores for one value: a string of a textual attribute trimmed, or null when nothing is left. */
  function Clean(v: Value, textual: bool): (r: Value)
    ensures !(textual && v.Str?) ==> r == v
    ensures textual && v.Str? ==> (r == Null <==> AllSpace(v.s))
    ensures textual && v.Str? && r.Str? ==> r.s == Trim(v.s) && Trimmed(r.s) && r.s != []
  {
    if textual && v.Str? then
      var t := Trim(v.s);
      TrimEmptyIffAllSpace(v.s);
      TrimIsTrimmed(v.s);
      if t == "" then Null else Str(t)
    else
      v
  }

  predicate Textual(attributes: map<string, Option<string>>, field: string)
  {
    field in attributes && IsTextType(attributes[field])
  }

  /** The data values after the hook; an instance without attribute definitions is left as it is. */
  function Sanitized(values: map<string, Value>, rawAttributes: Option<map<string, Option<string>>>): (r: map<string, Value>)
    ensures r.Keys == values.Keys
    ensures rawAttributes.None? ==> r == values
    ensures rawAttributes.Some? ==> forall f :: f in values && !Textual(rawAttributes.value, f) ==> r[f] == values[f]
  {
    match rawAttributes
    case None => values
    case Some(attributes) => map f | f in values :: Clean(values[f], Textual(attributes, f))
  }

  /** Cleaning twice is cleaning once. */
  lemma CleanIdempotent(v: Value, textual: bool)
    ensures Clean(Clean(v, textual), textual) == Clean(v, textual)
  {
    if textual && v.Str? {
      TrimIsTrimmed(v.s);
      if Trim(v.s) != "" {
        TrimmedIsFixed(Trim(v.s));
      }
    }
  }

  /** Running the hook twice gives the same values as running it once. */
  lemma SanitizedIdempotent(values: map<string, Value>, rawAttributes: Option<map<string, Option<string>>>)
    ensures Sanitized(Sanitized(values, rawAttributes), rawAttributes) == Sanitized(values, rawAttributes)
  {
    if rawAttributes.Some? {
      var attributes := rawAttributes.value;
      forall f | f in values {
        CleanIdempotent(values[f], Textual(attributes, f));
      }
    }
  }

  /** After the hook no textual attribute holds a string with white space at either end, nor an empty one. */
  lemma SanitizedIsTrimmed(values: map<string, Value>, attributes: map<string, Option<string>>)
    ensures forall f :: f in values && Textual(attributes, f) && Sanitized(values, Some(attributes))[f].Str? ==>
      Trimmed(Sanitized(values, Some(attributes))[f].s) && Sanitized(values, Some(attributes))[f].s != []
  {
  }

  /** The values with the fields of `done` cleaned and the others as they were. */
  function PartlySanitized(values: map<string, Value>, attributes: map<string, Option<string>>, done: set<string>)
    : map<string, Value>
  {
    map f | f in values :: if f in done then Clean(values[f], Textual(attributes, f)) else values[f]
  }

  lemma CleanOneMore(values: map<string, Value>, attributes: map<string, Option<string>>, done: set<string>, field: string)
    requires field !in done
    ensures field in values ==>
      PartlySanitized(values, attributes, done + {field})
      == PartlySanitized(values, attributes, done)[field := Clean(values[field], Textual(attributes, field))]
    ensures field !in values ==> PartlySanitized(values, attributes, done + {field}) == PartlySanitized(values, attributes, done)
  {
  }

  lemma AllCleaned(values: map<string, Value>, attributes: map<string, Option<string>>)
    ensures PartlySanitized(values, attributes, attributes.Keys) == Sanitized(values, Some(attributes))
  {
  }

  /** The hook: a loop over the attribute definitions that rewrites the instance's values in place. */
  method BeforeValidate(instance: Instance)
    modifies instance
    ensures instance.rawAttributes == old(instance.rawAttributes)
    ensures instance.dataValues == Sanitized(old(instance.dataValues), old(instance.rawAttributes))
  {
    if instance.rawAttributes.None? {
      return;
    }
    var attributes := instance.rawAttributes.value;
    ghost var original := instance.dataValues;
    var todo := attributes.Keys;
    ghost var done: set<string> := {};
    while todo != {}
      invariant todo !! done && todo + done == attributes.Keys
      invariant instance.rawAttributes == Some(attributes)
      invariant instance.dataValues == PartlySanitized(original, attributes, done)
      decreases todo
    {
      var field :| field in todo;
      CleanOneMore(original, attributes, done, field);
      if field in instance.dataValues {
        var value := instance.dataValues[field];
        assert value == original[field];
        if value.Str? && IsTextType(attributes[field]) {
          var trimmed := Trim(value.s);
          var stored := if trimmed == "" then Null else Str(trimmed);
          instance.dataValues := instance.dataValues[field := stored];
        } else {
          assert instance.dataValues == instance.dataValues[field := value];
        }
      }
      todo := todo - {field};
      done := done + {field};
    }
    AllCleaned(original, attributes);
  }
}
