/** The registration form of the front end: the password requirements, the
    requirements box, the live mismatch message, and the order in which a
    submission is validated before the registration request is sent. */
module Register {
  import opened Base
  import opened Text

  // ---------------------------------------------------------------------
  // Password requirements

  /** The five requirement flags. */
  datatype Requirements = Requirements(length: bool, uppercase: bool, lowercase: bool, number: bool, special: bool)

  /** `Object.values(reqs).every(Boolean)`. */
  predicate AllMet(r: Requirements) {
    r.length && r.uppercase && r.lowercase && r.number && r.special
  }

  /** The character classes of the four requirement patterns. */
  datatype CharClass = Upper | LowerCase | Digit | Special

  /** The class of the special-character pattern as written: the listed
      punctuation plus the range `+-=`, which runs from '+' to '=' and so
      takes in `, - . / 0-9 : ; < =`. */
  predicate IsSpecialChar(c: char) {
    || c in "!@#$%^&*()_"
    || ('+' <= c <= '=')
    || c in "[]{};':\"\\|,.<>/?"
  }

  predicate InClass(c: char, k: CharClass) {
    match k
    case Upper => 'A' <= c <= 'Z'
    case LowerCase => 'a' <= c <= 'z'
    case Digit => '0' <= c <= '9'
    case Special => IsSpecialChar(c)
  }

  /** `/[...]/.test(s)`: a scan for one character of the class. */
  function AnyInClass(s: string, k: CharClass): (b: bool)
    ensures b <==> exists i :: 0 <= i < |s| && InClass(s[i], k)
  {
    if s == [] then false
    else if InClass(s[0], k) then true
    else
      var b := AnyInClass(s[1..], k);
      assert forall i :: 1 <= i < |s| ==> s[i] == s[1..][i - 1];
      b
  }

  /** `checkPasswordRequirements`. */
  function CheckPasswordRequirements(pwd: string): (r: Requirements)
    ensures r.length <==> |pwd| >= 8
    ensures r.uppercase <==> exists i :: 0 <= i < |pwd| && InClass(pwd[i], Upper)
    ensures r.lowercase <==> exists i :: 0 <= i < |pwd| && InClass(pwd[i], LowerCase)
    ensures r.number <==> exists i :: 0 <= i < |pwd| && InClass(pwd[i], Digit)
    ensures r.special <==> exists i :: 0 <= i < |pwd| && InClass(pwd[i], Special)
  {
    Requirements(|pwd| >= 8, AnyInClass(pwd, Upper), AnyInClass(pwd, LowerCase),
                 AnyInClass(pwd, Digit), AnyInClass(pwd, Special))
  }

  /** Every digit is in the special class, so a password with a digit meets
      both the number and the special requirement. */
  lemma DigitMeetsSpecial(pwd: string)
    requires exists i :: 0 <= i < |pwd| && InClass(pwd[i], Digit)
    ensures CheckPasswordRequirements(pwd).number && CheckPasswordRequirements(pwd).special
  {
    var i :| 0 <= i < |pwd| && InClass(pwd[i], Digit);
    assert InClass(pwd[i], Special);
  }

  /** Eight characters with an upper-case letter, a lower-case letter and a
      digit meet every requirement, with no punctuation at all. */
  lemma LettersAndDigitSuffice(pwd: string, i: int, j: int, k: int)
    requires |pwd| >= 8 && 0 <= i < |pwd| && 0 <= j < |pwd| && 0 <= k < |pwd|
    requires 'A' <= pwd[i] <= 'Z' && 'a' <= pwd[j] <= 'z' && '0' <= pwd[k] <= '9'
    ensures AllMet(CheckPasswordRequirements(pwd))
  {
    assert InClass(pwd[i], Upper) && InClass(pwd[j], LowerCase) && InClass(pwd[k], Digit);
    DigitMeetsSpecial(pwd);
  }

  // ---------------------------------------------------------------------
  // Submission

  const UsernameTooShort := "Username must be at least 3 characters."
  const RequirementsUnmet := "Password does not meet all requirements."
  const PasswordsDiffer := "Passwords don't match."
  const InvalidEmail := "Invalid email address."
  const RegistrationSuccessful := "Registration successful."
  const RegistrationFailed := "Registration failed."
  const RequestFailed := "An error occurred. Please try again."

  /** The first check a submission fails, in the handler's order: the
      trimmed username, the password requirements, the confirmation, and a
      non-empty e-mail address against the e-mail pattern (whose verdict is
      passed in as `emailMatches`). */
  function FirstFailure(username: string, password: string, confirm: string, email: string,
                        emailMatches: bool): (r: Option<string>)
    ensures r == Some(UsernameTooShort) <==> |Trim(username)| < 3
    ensures r == Some(RequirementsUnmet) <==>
              |Trim(username)| >= 3 && !AllMet(CheckPasswordRequirements(password))
    ensures r == Some(PasswordsDiffer) <==>
              |Trim(username)| >= 3 && AllMet(CheckPasswordRequirements(password)) && password != confirm
    ensures r == Some(InvalidEmail) <==>
              |Trim(username)| >= 3 && AllMet(CheckPasswordRequirements(password)) && password == confirm
              && email != "" && !emailMatches
    ensures r.None? <==>
              |Trim(username)| >= 3 && AllMet(CheckPasswordRequirements(password)) && password == confirm
              && (email == "" || emailMatches)
  {
    if |Trim(username)| < 3 then Some(UsernameTooShort)
    else if !AllMet(CheckPasswordRequirements(password)) then Some(RequirementsUnmet)
    else if password != confirm then Some(PasswordsDiffer)
    else if email != "" && !emailMatches then Some(InvalidEmail)
    else None
  }

  /** The body of the registration request. */
  datatype RegisterRequest = RegisterRequest(username: string, password: string, email: string)

  const NoRequirements := Requirements(false, false, false, false, false)

  class RegisterForm {
    var username: string
    var email: string
    var password: string
    var confirmPassword: string
    var error: string
    var success: string
    var isLoading: bool
    var requirements: Requirements
    var showRequirementsBox: bool
    /** The registration requests sent so far, oldest first. */
    var sent: seq<RegisterRequest>

    constructor ()
      ensures username == "" && email == "" && password == "" && confirmPassword == ""
      ensures error == "" && success == "" && !isLoading
      ensures requirements == NoRequirements && !showRequirementsBox && sent == []
    {
      username, email, password, confirmPassword := "", "", "", "";
      error, success, isLoading := "", "", false;
      requirements, showRequirementsBox, sent := NoRequirements, false, [];
    }

    /** The username input: it stores what is typed and nothing else. */
    method UsernameChange(newUsername: string)
      modifies this
      ensures username == newUsername
      ensures email == old(email) && password == old(password) && confirmPassword == old(confirmPassword)
      ensures error == old(error) && success == old(success) && isLoading == old(isLoading)
      ensures requirements == old(requirements) && showRequirementsBox == old(showRequirementsBox) && sent == old(sent)
    {
      username := newUsername;
    }

    /** The e-mail input: it stores what is typed and nothing else. */
    method EmailChange(newEmail: string)
      modifies this
      ensures email == newEmail
      ensures username == old(username) && password == old(password) && confirmPassword == old(confirmPassword)
      ensures error == old(error) && success == old(success) && isLoading == old(isLoading)
      ensures requirements == old(requirements) && showRequirementsBox == old(showRequirementsBox) && sent == old(sent)
    {
      email := newEmail;
    }

    /** `handlePasswordFocus`: the box shows when the current password falls short. */
    method PasswordFocus()
      modifies this
      ensures showRequirementsBox == !AllMet(CheckPasswordRequirements(password))
      ensures username == old(username) && email == old(email) && password == old(password)
      ensures confirmPassword == old(confirmPassword) && error == old(error) && success == old(success)
      ensures isLoading == old(isLoading) && requirements == old(requirements) && sent == old(sent)
    {
      showRequirementsBox := !AllMet(CheckPasswordRequirements(password));
    }

    /** `handlePasswordChange`: new flags, the box shown exactly while a
        requirement is unmet, and the error cleared once the passwords match. */
    method PasswordChange(newPassword: string)
      modifies this
      ensures password == newPassword && requirements == CheckPasswordRequirements(newPassword)
      ensures showRequirementsBox <==> !AllMet(requirements)
      ensures error == (if newPassword == old(confirmPassword) then "" else old(error))
      ensures username == old(username) && email == old(email) && confirmPassword == old(confirmPassword)
      ensures success == old(success) && isLoading == old(isLoading) && sent == old(sent)
    {
      password := newPassword;
      var reqs := CheckPasswordRequirements(newPassword);
      requirements := reqs;
      showRequirementsBox := !AllMet(reqs);
      if newPassword == confirmPassword {
        error := "";
      }
    }

    /** `handleConfirmPasswordChange`: the mismatch message while a password
        is typed and differs, no error otherwise. */
    method ConfirmPasswordChange(newConfirm: string)
      modifies this
      ensures confirmPassword == newConfirm
      ensures error == (if password != "" && password != newConfirm then PasswordsDiffer else "")
      ensures username == old(username) && email == old(email) && password == old(password)
      ensures success == old(success) && isLoading == old(isLoading) && requirements == old(requirements)
      ensures showRequirementsBox == old(showRequirementsBox) && sent == old(sent)
    {
      confirmPassword := newConfirm;
      if password != "" && password != newConfirm {
        error := PasswordsDiffer;
      } else {
        error := "";
      }
    }

    /** `handleSubmit` up to the request: the first failed check sets its
        message (unmet requirements also force the box open) and nothing is
        sent; otherwise the trimmed username and e-mail are sent with the
        password. The button is disabled while a request is pending. */
    method Submit(emailMatches: bool)
      requires !isLoading
      modifies this
      ensures var failure := FirstFailure(old(username), old(password), old(confirmPassword), old(email), emailMatches);
              && (failure.Some? ==> error == failure.value && sent == old(sent))
              && (failure.Some? ==>
                    showRequirementsBox == (failure == Some(RequirementsUnmet) || old(showRequirementsBox)))
              && (failure.None? ==>
                    && error == "" && isLoading && showRequirementsBox == old(showRequirementsBox)
                    && sent == old(sent) + [RegisterRequest(Trim(old(username)), old(password), Trim(old(email)))])
      ensures success == "" && isLoading == FirstFailure(old(username), old(password), old(confirmPassword), old(email), emailMatches).None?
      ensures username == old(username) && email == old(email) && password == old(password)
      ensures confirmPassword == old(confirmPassword) && requirements == old(requirements)
    {
      error := "";
      success := "";
      if |Trim(username)| < 3 {
        error := UsernameTooShort;
        return;
      }
      if !AllMet(CheckPasswordRequirements(password)) {
        error := RequirementsUnmet;
        showRequirementsBox := true;
        return;
      }
      if password != confirmPassword {
        error := PasswordsDiffer;
        return;
      }
      if email != "" && !emailMatches {
        error := InvalidEmail;
        return;
      }
      isLoading := true;
      sent := sent + [RegisterRequest(Trim(username), password, Trim(email))];
    }

    /** A successful response: its message (or the default), every field
        cleared, every flag reset and the box hidden. */
    method RegistrationSucceeded(message: Option<string>)
      modifies this
      ensures success == (if Truthy(message) then message.value else RegistrationSuccessful)
      ensures username == "" && password == "" && confirmPassword == "" && email == ""
      ensures requirements == NoRequirements && !showRequirementsBox && !isLoading
      ensures error == old(error) && sent == old(sent)
    {
      success := if Truthy(message) then message.value else RegistrationSuccessful;
      username, password, confirmPassword, email := "", "", "", "";
      requirements := NoRequirements;
      showRequirementsBox := false;
      isLoading := false;
    }

    /** An error response: its message, or the default. */
    method RegistrationRejected(message: Option<string>)
      modifies this
      ensures error == (if Truthy(message) then message.value else RegistrationFailed)
      ensures !isLoading
      ensures username == old(username) && email == old(email) && password == old(password)
      ensures confirmPassword == old(confirmPassword) && success == old(success)
      ensures requirements == old(requirements) && showRequirementsBox == old(showRequirementsBox) && sent == old(sent)
    {
      error := if Truthy(message) then message.value else RegistrationFailed;
      isLoading := false;
    }

    /** A request that could not be made or read. */
    method RequestError()
      modifies this
      ensures error == RequestFailed && !isLoading
      ensures username == old(username) && email == old(email) && password == old(password)
      ensures confirmPassword == old(confirmPassword) && success == old(success)
      ensures requirements == old(requirements) && showRequirementsBox == old(showRequirementsBox) && sent == old(sent)
    {
      error := RequestFailed;
      isLoading := false;
    }
  }
}
