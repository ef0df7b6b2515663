/** The contact form: the live length cap on its inputs, the enabled look of
    its submit button, the checks `validateForm` runs before handing the form
    to the mail service, and the captcha secret those checks compare against. */
module ContactForm {
  import opened Wrappers
  import opened Text
  import Captcha

  const NameMin: nat := 3
  const NameMax: nat := 50
  const MessageMin: nat := 10
  const MessageMax: nat := 500

  /** `LIMITS`: the live length cap of an input, by its name. */
  function Limit(name: string): (m: Option<nat>)
    ensures m.Some? <==> name == "from_name" || name == "email" || name == "mensaje"
    ensures m.Some? ==> m.value > 0
  {
    if name == "from_name" then Some(50)
    else if name == "email" then Some(100)
    else if name == "mensaje" then Some(500)
    else None
  }

  /** What the `input` listener leaves in an input after the visitor typed or
      pasted `value`: the longest prefix within the input's cap. */
  function Clamp(name: string, value: string): (r: string)
    ensures r <= value
    ensures Limit(name).None? ==> r == value
    ensures Limit(name).Some? ==>
      |r| == if |value| <= Limit(name).value then |value| else Limit(name).value
  {
    match Limit(name)
    case Some(max) => if |value| > max then value[..max] else value
    case None => value
  }

  /** Clamping what was already clamped changes nothing. */
  lemma ClampIdempotent(name: string, value: string)
    ensures Clamp(name, Clamp(name, value)) == Clamp(name, value)
  {
  }

  /** The caps on the name and the message equal the upper bounds
      `validateForm` checks, so a value that arrived through the `input`
      event never fails those upper bounds. */
  lemma ClampMeetsUpperBounds(name: string, message: string)
    ensures |Trim(Clamp("from_name", name))| <= NameMax
    ensures |Trim(Clamp("mensaje", message))| <= MessageMax
  {
  }

  /** One way the unanchored pattern `\S+@\S+\.\S+` matches `s`: its three
      runs of non-space characters are `s[a..p]`, `s[p+1..q]` and `s[q+1..e]`. */
  ghost predicate PatternMatchAt(s: string, a: int, p: int, q: int, e: int) {
    0 <= a < p && p + 1 < q && q + 1 < e <= |s|
    && s[p] == '@' && s[q] == '.'
    && NoSpace(s[a..p]) && NoSpace(s[p + 1..q]) && NoSpace(s[q + 1..e])
  }

  /** `/\S+@\S+\.\S+/.test(s)`, as the regular expression defines it. */
  ghost predicate PatternMatches(s: string) {
    exists a, p, q, e :: PatternMatchAt(s, a, p, q, e)
  }

  /** The shortest match: one non-space character, `@`, a run of non-space
      characters, `.`, one non-space character. */
  predicate ShortestMatchAt(s: string, p: int, q: int) {
    1 <= p && p + 1 < q && q + 1 < |s|
    && s[p] == '@' && s[q] == '.'
    && !IsSpace(s[p - 1]) && NoSpace(s[p + 1..q]) && !IsSpace(s[q + 1])
  }

  /** The email test as the script runs it on the trimmed address. */
  predicate LooksLikeEmail(s: string) {
    exists p, q | 0 <= p < |s| && 0 <= q < |s| :: ShortestMatchAt(s, p, q)
  }

  /** The email test accepts exactly the strings the pattern matches somewhere. */
  lemma LooksLikeEmailIffPattern(s: string)
    ensures LooksLikeEmail(s) <==> PatternMatches(s)
  {
    if LooksLikeEmail(s) {
      var p, q :| 0 <= p < |s| && 0 <= q < |s| && ShortestMatchAt(s, p, q);
      assert PatternMatchAt(s, p - 1, p, q, q + 2);
    }
    if PatternMatches(s) {
      var a, p, q, e :| PatternMatchAt(s, a, p, q, e);
      assert s[p - 1] == s[a..p][p - 1 - a];
      assert s[q + 1] == s[q + 1..e][0];
      assert ShortestMatchAt(s, p, q);
    }
  }

  /** What `validateForm` reports: the title of the alert it shows, or success. */
  datatype Verdict =
    | Passed
    | IncompleteFields   // "Campos incompletos"
    | InvalidEmail       // "Email inválido"
    | InvalidName        // "Nombre inválido"
    | InvalidMessage     // "Mensaje inválido"
    | WrongCaptcha       // "Captcha incorrecto"

  /** `validateForm` over the raw field values, the captcha answer and the
      current secret; the checks run in order and the first failure is reported. */
  function Validate(name: string, email: string, message: string,
                    answer: string, secret: string): (v: Verdict)
    ensures v == Passed <==>
      !AllSpace(name) && !AllSpace(email) && !AllSpace(message)
      && PatternMatches(Trim(email))
      && NameMin <= |Trim(name)| <= NameMax
      && MessageMin <= |Trim(message)| <= MessageMax
      && Captcha.Accepts(answer, secret)
  {
    var n, e, m := Trim(name), Trim(email), Trim(message);
    LooksLikeEmailIffPattern(e);
    if n == [] || e == [] || m == [] then IncompleteFields
    else if !LooksLikeEmail(e) then InvalidEmail
    else if |n| < NameMin || |n| > NameMax then InvalidName
    else if |m| < MessageMin || |m| > MessageMax then InvalidMessage
    else if !Captcha.Accepts(answer, secret) then WrongCaptcha
    else Passed
  }

  /** Each failure is reported exactly when every earlier check passed and
      its own check failed: blank fields, then the email pattern, then the
      name length, then the message length, then the captcha. */
  lemma ValidationOrder(name: string, email: string, message: string,
                        answer: string, secret: string)
    ensures var v := Validate(name, email, message, answer, secret);
      var filled := !AllSpace(name) && !AllSpace(email) && !AllSpace(message);
      var emailOk := PatternMatches(Trim(email));
      var nameOk := NameMin <= |Trim(name)| <= NameMax;
      var messageOk := MessageMin <= |Trim(message)| <= MessageMax;
      (v == IncompleteFields <==> !filled)
      && (v == InvalidEmail <==> filled && !emailOk)
      && (v == InvalidName <==> filled && emailOk && !nameOk)
      && (v == InvalidMessage <==> filled && emailOk && nameOk && !messageOk)
      && (v == WrongCaptcha <==> filled && emailOk && nameOk && messageOk
                                  && !Captcha.Accepts(answer, secret))
  {
    LooksLikeEmailIffPattern(Trim(email));
  }

  /** One element of the form: its `name` attribute and its current value. */
  datatype Input = Input(name: string, value: string)

  predicate Filled(input: Input) {
    !AllSpace(input.value)
  }

  predicate AllFilled(inputs: seq<Input>) {
    forall i :: 0 <= i < |inputs| ==> Filled(inputs[i])
  }

  predicate Has(inputs: seq<Input>, name: string) {
    exists i :: 0 <= i < |inputs| && inputs[i].name == name
  }

  /** Where `querySelector('[name="…"]')` finds an input: the first one
      with that name, or `|inputs|` when there is none. */
  function IndexOf(inputs: seq<Input>, name: string): (k: nat)
    ensures k <= |inputs|
    ensures k < |inputs| ==> inputs[k].name == name
    ensures forall j :: 0 <= j < k ==> inputs[j].name != name
    ensures k == |inputs| <==> !Has(inputs, name)
  {
    if inputs == [] then 0
    else if inputs[0].name == name then 0
    else 1 + IndexOf(inputs[1..], name)
  }

  /** What `form.reset()` leaves: the same inputs, all empty. */
  function Cleared(inputs: seq<Input>): (r: seq<Input>)
    ensures |r| == |inputs|
    ensures forall i :: 0 <= i < |r| ==> r[i] == Input(inputs[i].name, "")
  {
    if inputs == [] then [] else [Input(inputs[0].name, "")] + Cleared(inputs[1..])
  }

  /** After a reset some input is blank, so the disabled look the success
      handler sets agrees with what `checkInputs` would compute. */
  lemma ClearedNotFilled(inputs: seq<Input>)
    requires inputs != []
    ensures !AllFilled(Cleared(inputs))
  {
    assert !Filled(Cleared(inputs)[0]);
  }

  /** The form, the captcha secret `captchaText` the script keeps beside it,
      and whether the submit button carries the `disabled` class. */
  class Form {
    /** The `[data-form-input]` elements, in document order. */
    var inputs: seq<Input>
    /** The value of the `captcha-input` element. */
    var captchaAnswer: string
    var captchaText: string
    var submitDisabled: bool

    predicate HasRequiredFields()
      reads this
    {
      Has(inputs, "from_name") && Has(inputs, "email") && Has(inputs, "mensaje")
    }

    /** The value of the input `name`, as `validateForm` reads it. */
    function ValueOf(name: string): (v: string)
      reads this
      requires Has(inputs, name)
      ensures exists i :: 0 <= i < |inputs| && inputs[i] == Input(name, v)
    {
      inputs[IndexOf(inputs, name)].value
    }

    /** Page load: the markup's inputs, then `checkInputs()`, then
        `generateCaptcha()` with the given random draws. */
    constructor (fields: seq<Input>, answer: string, draws: seq<nat>)
      requires Captcha.ValidDraws(draws) && |draws| == Captcha.SecretLength
      ensures inputs == fields && captchaAnswer == answer
      ensures submitDisabled == !AllFilled(fields)
      ensures captchaText == Captcha.SecretFrom(draws)
    {
      inputs := fields;
      captchaAnswer := answer;
      captchaText := "";
      submitDisabled := true;
      new;
      CheckInputs();
      GenerateCaptcha(draws);
    }

    /** The `input` listener that cuts the value of input `i` to its cap. */
    method ClampInput(i: nat)
      requires i < |inputs|
      modifies this`inputs
      ensures inputs == old(inputs)[i := Input(old(inputs)[i].name,
                                               Clamp(old(inputs)[i].name, old(inputs)[i].value))]
    {
      var input := inputs[i];
      var max := Limit(input.name);
      if max.Some? && |input.value| > max.value {
        inputs := inputs[i := Input(input.name, input.value[..max.value])];
      }
    }

    /** `checkInputs`: the button looks disabled exactly when some input is blank. */
    method CheckInputs()
      modifies this`submitDisabled
      ensures submitDisabled == !AllFilled(inputs)
    {
      var all := inputs;
      var allFilled := true;
      var i := 0;
      while i < |all| && allFilled
        invariant 0 <= i <= |all|
        invariant allFilled <==> forall k :: 0 <= k < i ==> Filled(all[k])
      {
        allFilled := Trim(all[i].value) != [];
        i := i + 1;
      }
      submitDisabled := !allFilled;
    }

    /** An `input` event on input `i` carrying `typed`: the browser stores
        it, the clamp listener runs, then `checkInputs` runs. */
    method OnInput(i: nat, typed: string)
      requires i < |inputs|
      modifies this`inputs, this`submitDisabled
      ensures inputs == old(inputs)[i := Input(old(inputs)[i].name, Clamp(old(inputs)[i].name, typed))]
      ensures submitDisabled == !AllFilled(inputs)
    {
      inputs := inputs[i := Input(inputs[i].name, typed)];
      ClampInput(i);
      CheckInputs();
    }

    /** The construction loop of `generateCaptcha`: one picked alphabet
        character appended per draw; the new secret replaces the old one. */
    method GenerateCaptcha(draws: seq<nat>)
      requires Captcha.ValidDraws(draws) && |draws| == Captcha.SecretLength
      modifies this`captchaText
      ensures captchaText == Captcha.SecretFrom(draws)
    {
      captchaText := "";
      for i := 0 to Captcha.SecretLength
        invariant captchaText == Captcha.SecretFrom(draws[..i])
      {
        assert draws[..i + 1][..i] == draws[..i];
        captchaText := captchaText + [Captcha.Alphabet[draws[i]]];
      }
      assert draws[..Captcha.SecretLength] == draws;
    }

    /** The `submit` listener: `validateForm()` and, when it passes, the hand-off
        to the mail service. When one of the three named fields is missing,
        reading its `value` throws, so there is no verdict (`None`) and nothing
        is sent. Nothing of the form changes, so a failed captcha check leaves
        the secret as it was. */
    method Submit() returns (verdict: Option<Verdict>, send: bool)
      ensures !HasRequiredFields() ==> verdict == None
      ensures HasRequiredFields() ==>
        verdict == Some(Validate(ValueOf("from_name"), ValueOf("email"), ValueOf("mensaje"),
                                 captchaAnswer, captchaText))
      ensures send <==> verdict == Some(Passed)
    {
      var nameAt := IndexOf(inputs, "from_name");
      var emailAt := IndexOf(inputs, "email");
      var messageAt := IndexOf(inputs, "mensaje");
      if nameAt == |inputs| || emailAt == |inputs| || messageAt == |inputs| {
        return None, false;
      }
      var name := inputs[nameAt].value;
      var email := inputs[emailAt].value;
      var message := inputs[messageAt].value;
      var v := Validate(name, email, message, captchaAnswer, captchaText);
      verdict := Some(v);
      send := v == Passed;
    }

    /** The mail service's success handler: the form is reset and the button
        gets the `disabled` class; the captcha secret is kept. */
    method OnSendSuccess()
      modifies this`inputs, this`captchaAnswer, this`submitDisabled
      ensures inputs == Cleared(old(inputs)) && captchaAnswer == []
      ensures submitDisabled
      ensures captchaText == old(captchaText)
    {
      inputs := Cleared(inputs);
      captchaAnswer := [];
      submitDisabled := true;
    }
  }

  /** A submission with a blank required field, or with a wrong captcha
      answer, is never handed to the mail service. */
  lemma BlankOrWrongCaptchaNeverSends(name: string, email: string, message: string,
                                      answer: string, secret: string)
    requires AllSpace(name) || AllSpace(email) || AllSpace(message)
             || !Captcha.Accepts(answer, secret)
    ensures Validate(name, email, message, answer, secret) != Passed
  {
  }
}
