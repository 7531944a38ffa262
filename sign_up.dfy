/** The registration form: its three field checks, each setting its own error state, and
    the request it sends. */
module SignUp {
  import opened FormRules
  import opened JsText

  const NameMessage: string := "O nome \U{00E9} obrigat\U{00F3}rio."
  const LoginPath: string := "/admin/login"

  /** `formData`: exactly the name, the e-mail and the password. */
  datatype RegisterPayload = RegisterPayload(name: string, email: string, password: string)

  /** What submitting the form does. */
  datatype SignUpOutcome =
    | Invalid
    | Mismatch
    | Request(payload: RegisterPayload)

  /** What comes after the server's reply. */
  datatype AfterReply = NavigateTo(path: string) | Alert(message: string)

  /** The checks together: a valid e-mail, a password of eight characters or more, and a
      name that is not empty (it is not trimmed). */
  predicate ValidSignUp(email: string, password: string, name: string) {
    EmailValid(email) && PasswordValid(password) && name != []
  }

  /** A successful registration goes to the login page; otherwise the message is shown. */
  function AfterRegister(success: bool, message: string): (a: AfterReply)
    ensures a.NavigateTo? <==> success
    ensures a.NavigateTo? ==> a.path == LoginPath
    ensures a.Alert? ==> a.message == message
  {
    if success then NavigateTo(LoginPath) else Alert(message)
  }

  class SignUpForm {
    var emailError: bool
    var emailErrorMessage: string
    var passwordError: bool
    var passwordErrorMessage: string
    var nameError: bool
    var nameErrorMessage: string

    constructor ()
      ensures !emailError && !passwordError && !nameError
      ensures emailErrorMessage == "" && passwordErrorMessage == "" && nameErrorMessage == ""
    {
      emailError, passwordError, nameError := false, false, false;
      emailErrorMessage, passwordErrorMessage, nameErrorMessage := "", "", "";
    }

    /** Each field's error state shows whether its own check failed. */
    predicate ShowsChecks(email: string, password: string, name: string)
      reads this
    {
      emailError == !EmailValid(email) && emailErrorMessage == (if emailError then EmailMessage else "")
      && passwordError == !PasswordValid(password) && passwordErrorMessage == (if passwordError then PasswordMessage else "")
      && nameError == (name == []) && nameErrorMessage == (if nameError then NameMessage else "")
    }

    /** `validateInputs`: all three checks run, whatever the earlier ones found. */
    method ValidateInputs(email: string, password: string, name: string) returns (isValid: bool)
      modifies this
      ensures isValid == ValidSignUp(email, password, name)
      ensures ShowsChecks(email, password, name)
    {
      isValid := true;
      if !EmailValid(email) {
        emailError, emailErrorMessage := true, EmailMessage;
        isValid := false;
      } else {
        emailError, emailErrorMessage := false, "";
      }
      if !PasswordValid(password) {
        passwordError, passwordErrorMessage := true, PasswordMessage;
        isValid := false;
      } else {
        passwordError, passwordErrorMessage := false, "";
      }
      if name == [] {
        nameError, nameErrorMessage := true, NameMessage;
        isValid := false;
      } else {
        nameError, nameErrorMessage := false, "";
      }
    }

    /** `handleRegister`: invalid fields or a confirmation that differs send nothing;
        otherwise the three fields go out. */
    method HandleRegister(name: string, email: string, password: string, confirmPassword: string)
      returns (o: SignUpOutcome)
      modifies this
      ensures ShowsChecks(email, password, name)
      ensures !ValidSignUp(email, password, name) ==> o == Invalid
      ensures ValidSignUp(email, password, name) && password != confirmPassword ==> o == Mismatch
      ensures o.Request? <==> ValidSignUp(email, password, name) && password == confirmPassword
      ensures o.Request? ==> o.payload == RegisterPayload(name, email, password)
    {
      var isValid := ValidateInputs(email, password, name);
      if !isValid {
        return Invalid;
      }
      if password != confirmPassword {
        return Mismatch;
      }
      o := Request(RegisterPayload(name, email, password));
    }
  }

  /** A request goes out only with a valid e-mail and a long enough password. */
  lemma RequestNeedsValidFields(name: string, email: string, password: string)
    requires ValidSignUp(email, password, name)
    ensures Length(password) >= MinPasswordLength && |email| >= 5 && name != []
  {
    EmptyChecksRedundant(email, password);
  }
}
