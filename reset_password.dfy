/** The password reset form: the check of the new password and its confirmation, and the
    guards before the reset request. The reCAPTCHA token, the link's query parameters and
    the server's reply are parameters. */
module ResetPassword {
  import opened Optional
  import opened FormRules

  const MismatchMessage: string := "As palavras passe n\U{00E3}o coincidem."
  const RecaptchaFailed: string := "Erro ao validar reCAPTCHA."
  const InvalidLink: string := "Link de redefini\U{00E7}\U{00E3}o inv\U{00E1}lido."
  const ResetDone: string := "Palavra-passe redefinida com sucesso!"
  const ResetFailed: string := "Erro ao redefinir palavra-passe."
  const ResetThrew: string := "Erro ao redefinir palavra passe."
  const LoginPath: string := "/admin/login"

  datatype Variant = Error | Success

  /** `complete-reset-password`'s body. */
  datatype ResetRequest = ResetRequest(token: string, email: string, password: string, recaptchaToken: string)

  /** A query parameter or token that JavaScript counts as present: not `null`, not "". */
  predicate Present(v: Option<string>) {
    v.Some? && v.value != ""
  }

  /** The form is accepted with a new password of eight characters that the confirmation
      repeats. */
  predicate ValidReset(newPassword: string, confirmation: string) {
    PasswordValid(newPassword) && newPassword == confirmation
  }

  /** The error state `validateInputs` leaves, and its result, as written: a short password
      shows the length message; in the other branch the mismatch state is set and then
      cleared straight away, so the field shows no error even when the passwords differ. */
  function CheckedAsWritten(newPassword: string, confirmation: string): (r: (bool, string, bool))
    ensures r.2 == ValidReset(newPassword, confirmation)
    ensures PasswordValid(newPassword) ==> !r.0 && r.1 == ""
    ensures !PasswordValid(newPassword) ==> r == (true, PasswordMessage, false)
  {
    if !PasswordValid(newPassword) then (true, PasswordMessage, false)
    else (false, "", newPassword == confirmation)
  }

  /** A password long enough but not repeated is refused while the field shows no error. */
  lemma MismatchHidden(newPassword: string, confirmation: string)
    requires newPassword == "abcdefgh" && confirmation == "abcdefgx"
    ensures CheckedAsWritten(newPassword, confirmation) == (false, "", false)
  {
    assert newPassword != confirmation by {
      assert newPassword[7] != confirmation[7];
    }
  }

  /** The state the mismatch branch evidently means to leave: the field shows the mismatch. */
  function Checked(newPassword: string, confirmation: string): (r: (bool, string, bool))
    ensures r.2 == ValidReset(newPassword, confirmation)
    ensures r.0 <==> !r.2
    ensures !PasswordValid(newPassword) ==> r.1 == PasswordMessage
    ensures PasswordValid(newPassword) && newPassword != confirmation ==> r.1 == MismatchMessage
  {
    if !PasswordValid(newPassword) then (true, PasswordMessage, false)
    else if newPassword != confirmation then (true, MismatchMessage, false)
    else (false, "", true)
  }

  /** The two agree on everything but a mismatch of long enough passwords, and give the
      same result on every input, so the request is sent in the same cases. */
  lemma CheckedAgreement(newPassword: string, confirmation: string)
    ensures CheckedAsWritten(newPassword, confirmation).2 == Checked(newPassword, confirmation).2
    ensures !(PasswordValid(newPassword) && newPassword != confirmation) ==>
      CheckedAsWritten(newPassword, confirmation) == Checked(newPassword, confirmation)
  {
  }

  /** How the submission ends. */
  datatype ResetOutcome =
    | NotSent
    | Sent(request: ResetRequest, next: Option<string>)

  class ResetPasswordForm {
    var newPasswordError: bool
    var newPasswordErrorMessage: string
    var isSubmitting: bool
    /** The snackbar messages shown, oldest first. */
    var notices: seq<(string, Variant)>

    constructor ()
      ensures !newPasswordError && newPasswordErrorMessage == "" && !isSubmitting && notices == []
    {
      newPasswordError, newPasswordErrorMessage := false, "";
      isSubmitting := false;
      notices := [];
    }

    /** `validateInputs` as written, with the messages it shows. */
    method ValidateInputs(newPassword: string, confirmation: string) returns (isValid: bool)
      modifies this
      ensures (newPasswordError, newPasswordErrorMessage, isValid) == CheckedAsWritten(newPassword, confirmation)
      ensures !PasswordValid(newPassword) ==> notices == old(notices) + [(PasswordMessage, Error)]
      ensures PasswordValid(newPassword) && newPassword != confirmation ==> notices == old(notices) + [(MismatchMessage, Error)]
      ensures ValidReset(newPassword, confirmation) ==> notices == old(notices)
      ensures isSubmitting == old(isSubmitting)
    {
      isValid := true;
      if !PasswordValid(newPassword) {
        newPasswordError, newPasswordErrorMessage := true, PasswordMessage;
        notices := notices + [(PasswordMessage, Error)];
        isValid := false;
      } else {
        if newPassword != confirmation {
          newPasswordError, newPasswordErrorMessage := true, MismatchMessage;
          notices := notices + [(MismatchMessage, Error)];
          isValid := false;
        }
        newPasswordError, newPasswordErrorMessage := false, "";
      }
    }

    /** `handleResetPassword`: no request without valid fields, a reCAPTCHA token, and the
        link's token and e-mail; the request carries all four; `reply` is the server's
        flag and message, or `None` when the request throws. The form is never left
        submitting. `next` is the page the user is sent to. */
    method HandleResetPassword(newPassword: string, confirmation: string, recaptchaToken: Option<string>,
                               token: Option<string>, email: Option<string>, reply: Option<(bool, string)>)
      returns (o: ResetOutcome)
      modifies this
      ensures o.Sent? <==> ValidReset(newPassword, confirmation) && Present(recaptchaToken) && Present(token) && Present(email)
      ensures o.Sent? ==> o.request == ResetRequest(token.value, email.value, newPassword, recaptchaToken.value)
      ensures o.Sent? ==> (o.next == Some(LoginPath) <==> reply.Some? && reply.value.0)
      ensures ValidReset(newPassword, confirmation) && !Present(recaptchaToken) ==>
        notices == old(notices) + [(RecaptchaFailed, Error)]
      ensures ValidReset(newPassword, confirmation) && Present(recaptchaToken) && !(Present(token) && Present(email)) ==>
        notices == old(notices) + [(InvalidLink, Error)]
      ensures o.Sent? && reply.Some? && reply.value.0 ==> notices == old(notices) + [(ResetDone, Success)]
      ensures o.Sent? && reply.Some? && !reply.value.0 ==>
        notices == old(notices) + [(if reply.value.1 != "" then reply.value.1 else ResetFailed, Error)]
      ensures o.Sent? && reply.None? ==> notices == old(notices) + [(ResetThrew, Error)]
      ensures ValidReset(newPassword, confirmation) ==> !isSubmitting
      ensures !ValidReset(newPassword, confirmation) ==> isSubmitting == old(isSubmitting) && o == NotSent
    {
      var isValid := ValidateInputs(newPassword, confirmation);
      if !isValid {
        return NotSent;
      }
      isSubmitting := true;
      if !Present(recaptchaToken) {
        notices := notices + [(RecaptchaFailed, Error)];
        isSubmitting := false;
        return NotSent;
      }
      if !Present(token) || !Present(email) {
        notices := notices + [(InvalidLink, Error)];
        isSubmitting := false;
        return NotSent;
      }
      var request := ResetRequest(token.value, email.value, newPassword, recaptchaToken.value);
      if reply.None? {
        notices := notices + [(ResetThrew, Error)];
        o := Sent(request, None);
      } else if reply.value.0 {
        notices := notices + [(ResetDone, Success)];
        o := Sent(request, Some(LoginPath));
      } else {
        notices := notices + [(if reply.value.1 != "" then reply.value.1 else ResetFailed, Error)];
        o := Sent(request, None);
      }
      isSubmitting := false;
    }
  }
}
