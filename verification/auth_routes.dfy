/**
 * `routes/auth.route.js`: the validation chains in front of `postSignUp` and `postLogin`. Each
 * chain adds its message to the validation result when its check fails, in the order the chains
 * are listed; the `trim()` sanitizers also rewrite the body the controller then reads.
 */
module AuthRoutes {
  import opened Wrappers
  import opened Text

  /** One entry of the validation result: the field and its message. */
  datatype FieldError = FieldError(path: string, msg: string)

  /**
   * The validator-library checks the chains call, taken as given: `isInt`, `isMobilePhone`,
   * `isEmail`, and JavaScript's conversion of a string to a number (`None` for NaN), which the
   * loose comparison `req.body.subscription == 3` performs.
   */
  datatype Validators = Validators(
    isInt: string -> bool,
    isMobilePhone: string -> bool,
    isEmail: string -> bool,
    toNumber: string -> Option<real>)

  /**
   * The posted sign-up form. A field the form leaves empty arrives as the empty string; only the
   * organisation name can be absent altogether (`None`), which `optional()` treats as nothing to check.
   */
  datatype SignUpBody = SignUpBody(
    subscription: string,
    orgName: Option<string>,
    orgPhone: string,
    firstName: string,
    lastName: string,
    email: string,
    password: string)

  datatype LoginBody = LoginBody(email: string, password: string)

  const SUBSCRIPTION_REQUIRED := FieldError("subscription", "Subscription is required")
  const ORG_NAME_REQUIRED := FieldError("orgName", "Organization name is required")
  const INVALID_PHONE := FieldError("orgPhone", "Invalid phone number")
  const FIRST_NAME_REQUIRED := FieldError("firstName", "Admin first name is required")
  const LAST_NAME_REQUIRED := FieldError("lastName", "Admin last name is required")
  const EMAIL_REQUIRED := FieldError("email", "Admin email is required")
  const PASSWORD_TOO_SHORT := FieldError("password", "Password must be at least 8 characters")
  const INVALID_EMAIL := FieldError("email", "Invalid email")
  const INVALID_PASSWORD := FieldError("password", "Invalid password")

  /** The minimum length of a trimmed password, for both sign-up and login. */
  const MIN_PASSWORD := 8

  /** `[e]` when the check failed, nothing otherwise. */
  function Check(ok: bool, e: FieldError): seq<FieldError>
  {
    if ok then [] else [e]
  }

  /** `req.body.subscription == 3`, a loose comparison of the posted string with the number 3. */
  predicate TierThree(b: SignUpBody, v: Validators)
  {
    v.toNumber(b.subscription) == Some(3.0)
  }

  /** The organisation-name chain: skipped when absent; otherwise, on the tier-3 plan, its trimmed value must not be empty. */
  predicate OrgNameOk(b: SignUpBody, v: Validators)
  {
    b.orgName.None? || !TierThree(b, v) || Trim(b.orgName.value) != ""
  }

  /** `optional({ checkFalsy: true }).isMobilePhone()`: an empty phone is not checked. */
  predicate PhoneOk(b: SignUpBody, v: Validators)
  {
    b.orgPhone == "" || v.isMobilePhone(b.orgPhone)
  }

  predicate PasswordOk(password: string)
  {
    |Trim(password)| >= MIN_PASSWORD
  }

  /** The validation result of the sign-up chains, in the order they are declared. */
  function SignUpErrors(b: SignUpBody, v: Validators): seq<FieldError>
  {
    Check(v.isInt(b.subscription), SUBSCRIPTION_REQUIRED)
    + Check(OrgNameOk(b, v), ORG_NAME_REQUIRED)
    + Check(PhoneOk(b, v), INVALID_PHONE)
    + Check(Trim(b.firstName) != "", FIRST_NAME_REQUIRED)
    + Check(Trim(b.lastName) != "", LAST_NAME_REQUIRED)
    + Check(v.isEmail(b.email), EMAIL_REQUIRED)
    + Check(PasswordOk(b.password), PASSWORD_TOO_SHORT)
  }

  /** The body the controller reads once the `trim()` sanitizers have run. */
  function SanitizedSignUp(b: SignUpBody): SignUpBody
  {
    b.(orgName := if b.orgName.Some? then Some(Trim(b.orgName.value)) else None,
       firstName := Trim(b.firstName), lastName := Trim(b.lastName), password := Trim(b.password))
  }

  /** The validation result of the login chains. */
  function LoginErrors(b: LoginBody, v: Validators): seq<FieldError>
  {
    Check(v.isEmail(b.email), INVALID_EMAIL) + Check(PasswordOk(b.password), INVALID_PASSWORD)
  }

  function SanitizedLogin(b: LoginBody): LoginBody
  {
    b.(password := Trim(b.password))
  }

  /**
   * Sign-up passes exactly when the subscription is an integer, the organisation name is given
   * whenever it is present on the tier-3 plan, a non-empty phone is a mobile number, both admin
   * names are non-blank, the email is an email and the trimmed password has at least 8 characters.
   */
  lemma SignUpAccepted(b: SignUpBody, v: Validators)
    ensures SignUpErrors(b, v) == [] <==>
      && v.isInt(b.subscription)
      && (b.orgName.Some? && v.toNumber(b.subscription) == Some(3.0) ==> Trim(b.orgName.value) != "")
      && (b.orgPhone != "" ==> v.isMobilePhone(b.orgPhone))
      && Trim(b.firstName) != "" && Trim(b.lastName) != ""
      && v.isEmail(b.email)
      && |Trim(b.password)| >= 8
  {
    var parts := [Check(v.isInt(b.subscription), SUBSCRIPTION_REQUIRED), Check(OrgNameOk(b, v), ORG_NAME_REQUIRED),
                  Check(PhoneOk(b, v), INVALID_PHONE), Check(Trim(b.firstName) != "", FIRST_NAME_REQUIRED),
                  Check(Trim(b.lastName) != "", LAST_NAME_REQUIRED), Check(v.isEmail(b.email), EMAIL_REQUIRED),
                  Check(PasswordOk(b.password), PASSWORD_TOO_SHORT)];
    assert SignUpErrors(b, v) == parts[0] + parts[1] + parts[2] + parts[3] + parts[4] + parts[5] + parts[6];
  }

  /** Each rule reports its own message, and only when that rule fails. */
  lemma SignUpMessages(b: SignUpBody, v: Validators)
    ensures SUBSCRIPTION_REQUIRED in SignUpErrors(b, v) <==> !v.isInt(b.subscription)
    ensures ORG_NAME_REQUIRED in SignUpErrors(b, v) <==> !OrgNameOk(b, v)
    ensures INVALID_PHONE in SignUpErrors(b, v) <==> !PhoneOk(b, v)
    ensures FIRST_NAME_REQUIRED in SignUpErrors(b, v) <==> Trim(b.firstName) == ""
    ensures LAST_NAME_REQUIRED in SignUpErrors(b, v) <==> Trim(b.lastName) == ""
    ensures EMAIL_REQUIRED in SignUpErrors(b, v) <==> !v.isEmail(b.email)
    ensures PASSWORD_TOO_SHORT in SignUpErrors(b, v) <==> !PasswordOk(b.password)
    ensures |SignUpErrors(b, v)| <= 7
  {
    PlanMessages(b, v);
    AdminMessages(b, v);
  }

  /** The messages of the plan and organisation rules. */
  lemma PlanMessages(b: SignUpBody, v: Validators)
    ensures SUBSCRIPTION_REQUIRED in SignUpErrors(b, v) <==> !v.isInt(b.subscription)
    ensures ORG_NAME_REQUIRED in SignUpErrors(b, v) <==> !OrgNameOk(b, v)
    ensures INVALID_PHONE in SignUpErrors(b, v) <==> !PhoneOk(b, v)
    ensures |SignUpErrors(b, v)| <= 7
  {
  }

  /** The messages of the admin rules. */
  lemma AdminMessages(b: SignUpBody, v: Validators)
    ensures FIRST_NAME_REQUIRED in SignUpErrors(b, v) <==> Trim(b.firstName) == ""
    ensures LAST_NAME_REQUIRED in SignUpErrors(b, v) <==> Trim(b.lastName) == ""
    ensures EMAIL_REQUIRED in SignUpErrors(b, v) <==> !v.isEmail(b.email)
    ensures PASSWORD_TOO_SHORT in SignUpErrors(b, v) <==> !PasswordOk(b.password)
  {
  }

  /** The organisation name plays a part only on the tier-3 plan: otherwise its value, or its absence, changes nothing. */
  lemma OrgNameOnlyForTierThree(b: SignUpBody, v: Validators, name: Option<string>)
    requires !TierThree(b, v)
    ensures SignUpErrors(b.(orgName := name), v) == SignUpErrors(b, v)
  {
  }

  /** An absent organisation name is never reported, even on the tier-3 plan: `optional()` skips the custom check. */
  lemma AbsentOrgNameSkipped(b: SignUpBody, v: Validators)
    requires b.orgName.None?
    ensures ORG_NAME_REQUIRED !in SignUpErrors(b, v)
  {
  }

  /** Validating the sanitized body gives the same result: trimming again changes nothing the rules look at. */
  lemma SanitizedSignUpStable(b: SignUpBody, v: Validators)
    ensures SignUpErrors(SanitizedSignUp(b), v) == SignUpErrors(b, v)
  {
    TrimIdempotent(b.firstName);
    TrimIdempotent(b.lastName);
    TrimIdempotent(b.password);
    if b.orgName.Some? {
      TrimIdempotent(b.orgName.value);
    }
  }

  /** An accepted body reaches the controller with non-blank, trimmed names and a trimmed password of at least 8 characters. */
  lemma AcceptedSignUpSanitized(b: SignUpBody, v: Validators)
    requires SignUpErrors(b, v) == []
    ensures var s := SanitizedSignUp(b);
      && !AllSpace(s.firstName) && !AllSpace(s.lastName) && !AllSpace(s.password)
      && Trimmed(s.firstName) && Trimmed(s.lastName) && |s.password| >= MIN_PASSWORD
      && (s.orgName.Some? ==> Trimmed(s.orgName.value))
      && (s.orgName.Some? && TierThree(b, v) ==> !AllSpace(s.orgName.value))
  {
    SignUpAccepted(b, v);
    var s := SanitizedSignUp(b);
    TrimIsTrimmed(b.firstName);
    TrimIsTrimmed(b.lastName);
    TrimIsTrimmed(b.password);
    TrimmedNonEmptyNotBlank(s.firstName);
    TrimmedNonEmptyNotBlank(s.lastName);
    TrimmedNonEmptyNotBlank(s.password);
    if b.orgName.Some? {
      TrimIsTrimmed(b.orgName.value);
      if TierThree(b, v) {
        TrimmedNonEmptyNotBlank(s.orgName.value);
      }
    }
  }

  /** A trimmed string that is not empty starts with a character that is not white space. */
  lemma TrimmedNonEmptyNotBlank(s: string)
    requires Trimmed(s) && s != ""
    ensures !AllSpace(s)
  {
    assert !IsSpace(s[0]);
  }

  /** Login passes exactly when the email is an email and the trimmed password has at least 8 characters. */
  lemma LoginAccepted(b: LoginBody, v: Validators)
    ensures LoginErrors(b, v) == [] <==> v.isEmail(b.email) && |Trim(b.password)| >= 8
    ensures INVALID_EMAIL in LoginErrors(b, v) <==> !v.isEmail(b.email)
    ensures INVALID_PASSWORD in LoginErrors(b, v) <==> !PasswordOk(b.password)
  {
  }

  /** Sign-up and login apply the same password rule: a password sign-up accepts passes the login check too. */
  lemma SignUpPasswordLogsIn(b: SignUpBody, v: Validators)
    requires SignUpErrors(b, v) == []
    ensures LoginErrors(LoginBody(b.email, SanitizedSignUp(b).password), v) == []
  {
    SignUpAccepted(b, v);
    TrimIdempotent(b.password);
  }
}
