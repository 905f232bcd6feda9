/** `middleware/validate.js`. */
module Validate {
  import opened Wrappers
  import opened Text
  import DbHook

  /** `emptyStringToNull`: null for a blank string, otherwise the trimmed string. */
  function EmptyStringToNull(s: string): (r: Option<string>)
    ensures r.None? <==> AllSpace(s)
    ensures r.Some? ==> r.value == Trim(s) && Trimmed(r.value) && r.value != []
  {
    TrimEmptyIffAllSpace(s);
    TrimIsTrimmed(s);
    if Trim(s) == "" then None else Some(Trim(s))
  }

  /** Applying it to its own result changes nothing. */
  lemma EmptyStringToNullIdempotent(s: string)
    ensures EmptyStringToNull(s).Some? ==> EmptyStringToNull(EmptyStringToNull(s).value) == EmptyStringToNull(s)
  {
    if EmptyStringToNull(s).Some? {
      TrimmedIsFixed(Trim(s));
    }
  }

  /** The middleware and the database hook agree on every string of a textual attribute. */
  lemma AgreesWithHook(s: string)
    ensures DbHook.Clean(DbHook.Str(s), true) ==
      match EmptyStringToNull(s) case None => DbHook.Null case Some(t) => DbHook.Str(t)
  {
  }

  /** One failed check of express-validator. */
  datatype FieldError = FieldError(path: string, msg: string)

  /** What `res.locals.errors` holds: an empty array, or the validation result object with its errors. */
  datatype ErrorsLocal = NoErrors | ValidationResult(errors: seq<FieldError>)

  /** The response locals the middleware writes. */
  class Locals {
    var errors: Option<ErrorsLocal>

    constructor ()
      ensures errors == None
    {
      errors := None;
    }
  }

  /**
   * `validate(req, res, next)`, given the errors express-validator collected for the request. Returns
   * how many times `next` was called.
   */
  method ValidateRequest(found: seq<FieldError>, locals: Locals) returns (nextCalls: nat)
    modifies locals
    ensures nextCalls == 1
    ensures found == [] ==> locals.errors == Some(NoErrors)
    ensures found != [] ==> locals.errors == Some(ValidationResult(found))
  {
    nextCalls := 0;
    if found == [] {
      locals.errors := Some(NoErrors);
      nextCalls := nextCalls + 1;
      return;
    }
    locals.errors := Some(ValidationResult(found));
    nextCalls := nextCalls + 1;
  }
}
