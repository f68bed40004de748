/**
 * The password reset page (src/app/reset-password/page.tsx): it first
 * checks for a recovery session, then validates the new password (both
 * fields filled, at least six characters, the two equal) before asking
 * the auth service to change it. The service's answers are parameters;
 * the delayed sign-out and redirect after a success are reported as the
 * path it goes to.
 */
module ResetPassword {
  import opened JsStrings

  const EmptyFieldsError := "Por favor, preencha todos os campos."
  const TooShortError := "A senha deve ter pelo menos 6 caracteres."
  const MismatchError := "As senhas não coincidem."
  const MinPasswordLength := 6

  const SessionCheckError := "Erro ao verificar sessão de recuperação."
  const NoSessionError := "Sessão de recuperação inválida ou expirada. Por favor, solicite um novo link de recuperação."
  const SessionThrowError := "Erro inesperado ao verificar sessão."
  const SuccessText := "Senha alterada com sucesso! Redirecionando para o login..."
  const LoginAfterReset := "/login?message=password-updated"

  datatype MessageKind = ErrorMessage | SuccessMessage

  /** `{ type, text }`. */
  datatype Message = Message(kind: MessageKind, text: string)

  /**
   * The three checks of `handlePasswordReset`, in their order: the first
   * that fails gives its error; `None` lets the password through.
   */
  function Validate(password: string, confirmPassword: string): (r: Option<string>)
    ensures r == Some(EmptyFieldsError) <==> password == "" || confirmPassword == ""
    ensures r == Some(TooShortError) <==> password != "" && confirmPassword != "" && |password| < MinPasswordLength
    ensures r == Some(MismatchError) <==>
      password != "" && confirmPassword != "" && |password| >= MinPasswordLength && password != confirmPassword
    ensures r.None? <==> |password| >= MinPasswordLength && password == confirmPassword
  {
    if password == "" || confirmPassword == "" then Some(EmptyFieldsError)
    else if |password| < MinPasswordLength then Some(TooShortError)
    else if password != confirmPassword then Some(MismatchError)
    else None
  }

  /** A short password is reported as short even when the confirmation differs: length comes before equality. */
  lemma LengthCheckedBeforeMatch(password: string, confirmPassword: string)
    requires password != "" && confirmPassword != "" && |password| < MinPasswordLength
    ensures Validate(password, confirmPassword) == Some(TooShortError)
  {
  }

  /** What `supabase.auth.getSession()` answers. */
  datatype SessionReply = SessionError | SessionFound | NoSession | SessionThrows

  /** The message the session check leaves: none when there is a session, an error otherwise. */
  function SessionMessage(reply: SessionReply): (r: Option<Message>)
    ensures r.None? <==> reply.SessionFound?
    ensures r.Some? ==> r.value.kind == ErrorMessage && r.value.text != ""
  {
    match reply
    case SessionError => Some(Message(ErrorMessage, SessionCheckError))
    case SessionFound => None
    case NoSession => Some(Message(ErrorMessage, NoSessionError))
    case SessionThrows => Some(Message(ErrorMessage, SessionThrowError))
  }

  /** What `supabase.auth.updateUser` does: succeeds, answers an error, or throws (with an `Error`'s message or something else). */
  datatype UpdateReply = UpdateOk | UpdateError(message: string) | UpdateThrows(errorMessage: Option<string>)

  /** The message after the update. */
  function UpdateMessage(reply: UpdateReply): (r: Message)
    ensures r.kind == SuccessMessage <==> reply.UpdateOk?
    ensures reply.UpdateOk? ==> r.text == SuccessText
    ensures reply.UpdateError? ==> r.text == "Erro ao alterar senha: " + reply.message
    ensures reply.UpdateThrows? && reply.errorMessage.Some? ==> r.text == "Erro inesperado: " + reply.errorMessage.value
    ensures reply == UpdateThrows(None) ==> r.text == "Erro inesperado: Erro desconhecido"
  {
    match reply
    case UpdateOk => Message(SuccessMessage, SuccessText)
    case UpdateError(m) => Message(ErrorMessage, "Erro ao alterar senha: " + m)
    case UpdateThrows(m) =>
      Message(ErrorMessage, "Erro inesperado: " + if m.Some? then m.value else "Erro desconhecido")
  }

  /** What the page renders. */
  datatype View = Checking | InvalidSession(message: Option<Message>) | Form(message: Option<Message>, loading: bool)

  /** The spinner while checking, the invalid-session page without a session, and the form only with one. */
  function ViewOf(checkingSession: bool, isValidSession: bool, message: Option<Message>, loading: bool): (r: View)
    ensures r.Checking? <==> checkingSession
    ensures r.Form? <==> !checkingSession && isValidSession
    ensures r.InvalidSession? ==> r.message == message
  {
    if checkingSession then Checking
    else if !isValidSession then InvalidSession(message)
    else Form(message, loading)
  }

  /** Once the session check is over, one without a session shows its error on the invalid-session page, never the form. */
  lemma NoSessionNoForm(reply: SessionReply, loading: bool)
    requires !reply.SessionFound?
    ensures ViewOf(false, false, SessionMessage(reply), loading) == InvalidSession(SessionMessage(reply))
    ensures SessionMessage(reply).Some? && SessionMessage(reply).value.kind == ErrorMessage
  {
  }

  class Page {
    var password: string
    var confirmPassword: string
    var loading: bool
    var message: Option<Message>
    var isValidSession: bool
    var checkingSession: bool

    constructor()
      ensures password == "" && confirmPassword == "" && !loading && message == None
      ensures !isValidSession && checkingSession
    {
      password := "";
      confirmPassword := "";
      loading := false;
      message := None;
      isValidSession := false;
      checkingSession := true;
    }

    function CurrentView(): View
      reads this
    {
      ViewOf(checkingSession, isValidSession, message, loading)
    }

    /** The two inputs' `onChange`. */
    method SetPassword(value: string)
      modifies this
      ensures password == value && confirmPassword == old(confirmPassword)
      ensures loading == old(loading) && message == old(message)
      ensures isValidSession == old(isValidSession) && checkingSession == old(checkingSession)
    {
      password := value;
    }

    method SetConfirmPassword(value: string)
      modifies this
      ensures confirmPassword == value && password == old(password)
      ensures loading == old(loading) && message == old(message)
      ensures isValidSession == old(isValidSession) && checkingSession == old(checkingSession)
    {
      confirmPassword := value;
    }

    /**
     * `checkRecoverySession`: a session makes the page valid; an error, no
     * session or a throw set the matching message. The session check ends either way.
     */
    method CheckRecoverySession(reply: SessionReply)
      modifies this
      ensures !checkingSession
      ensures isValidSession == (old(isValidSession) || reply.SessionFound?)
      ensures message == (if reply.SessionFound? then old(message) else SessionMessage(reply))
      ensures password == old(password) && confirmPassword == old(confirmPassword) && loading == old(loading)
    {
      match reply {
        case SessionError =>
          message := Some(Message(ErrorMessage, SessionCheckError));
        case SessionFound =>
          isValidSession := true;
        case NoSession =>
          message := Some(Message(ErrorMessage, NoSessionError));
        case SessionThrows =>
          message := Some(Message(ErrorMessage, SessionThrowError));
      }
      checkingSession := false;
    }

    /**
     * `handlePasswordReset`. Input that fails a check sets that check's
     * error and calls nothing. Valid input sets `loading` and clears the
     * message before `updateUser` is called with the password
     * (`updatedWith`; `loadingAtCall` is `loading` at that moment); its
     * answer sets the message, a success schedules the sign-out and the
     * redirect, and `loading` is cleared at the end.
     */
    method PasswordReset(reply: UpdateReply) returns (updatedWith: Option<string>, loadingAtCall: bool, redirect: Option<string>)
      modifies this
      ensures Validate(old(password), old(confirmPassword)).Some? ==>
        updatedWith == None && redirect == None && loading == old(loading)
        && message == Some(Message(ErrorMessage, Validate(old(password), old(confirmPassword)).value))
      ensures Validate(old(password), old(confirmPassword)).None? ==>
        updatedWith == Some(old(password)) && loadingAtCall && !loading
        && message == Some(UpdateMessage(reply))
        && (redirect.Some? <==> reply.UpdateOk?)
      ensures redirect.Some? ==> redirect.value == LoginAfterReset
      ensures password == old(password) && confirmPassword == old(confirmPassword)
      ensures isValidSession == old(isValidSession) && checkingSession == old(checkingSession)
    {
      updatedWith, loadingAtCall, redirect := None, loading, None;
      if password == "" || confirmPassword == "" {
        message := Some(Message(ErrorMessage, EmptyFieldsError));
        return;
      }
      if |password| < MinPasswordLength {
        message := Some(Message(ErrorMessage, TooShortError));
        return;
      }
      if password != confirmPassword {
        message := Some(Message(ErrorMessage, MismatchError));
        return;
      }
      loading := true;
      message := None;
      updatedWith, loadingAtCall := Some(password), loading;
      match reply {
        case UpdateError(m) =>
          message := Some(Message(ErrorMessage, "Erro ao alterar senha: " + m));
        case UpdateOk =>
          message := Some(Message(SuccessMessage, SuccessText));
          redirect := Some(LoginAfterReset);
        case UpdateThrows(m) =>
          message := Some(Message(ErrorMessage, "Erro inesperado: " + if m.Some? then m.value else "Erro desconhecido"));
      }
      loading := false;
    }
  }

  /** The password sent to the service always has at least six characters and equals its confirmation. */
  lemma OnlyValidPasswordSent(password: string, confirmPassword: string)
    requires Validate(password, confirmPassword).None?
    ensures |password| >= MinPasswordLength && password == confirmPassword && password != ""
  {
  }
}
