/**
 * The login and registration form: splitting login errors into those shown
 * as HTML and those shown as text, the error-list resets, the submit
 * handlers' state changes, and the boolean rules that decide which parts
 * of the form are shown or enabled.
 *
 * The HTTP calls are not modelled: their outcomes are arguments. Router
 * navigation is returned as the path navigated to.
 */
module Login {
  import opened Wrappers

  const REGISTER_PATH: string := "/register"
  const USER_ACTIVATION_REGISTER_PATH: string := "/user-activation/register"
  const DEFAULT_REDIRECT: string := "/"

  /** The error codes the form distinguishes: the duplicated-username code of an external provider, and any other. */
  datatype ErrorCode = ProviderDuplicatedUsernameException | OtherCode(code: string) | NoCode

  datatype ErrorV3 = ErrorV3(code: ErrorCode, message: string)

  datatype RegistrationMode = Open | Restricted | Closed

  predicate IsDuplicatedUsername(e: ErrorV3)
  {
    e.code == ProviderDuplicatedUsernameException
  }

  /** The errors with the duplicated-username code, in order. */
  function DuplicatedUsernameErrors(errors: seq<ErrorV3>): seq<ErrorV3>
    decreases |errors|
  {
    if errors == [] then []
    else
      var n := |errors| - 1;
      var init := DuplicatedUsernameErrors(errors[..n]);
      if IsDuplicatedUsername(errors[n]) then init + [errors[n]] else init
  }

  /** The remaining errors, in order. */
  function OtherErrors(errors: seq<ErrorV3>): seq<ErrorV3>
    decreases |errors|
  {
    if errors == [] then []
    else
      var n := |errors| - 1;
      var init := OtherErrors(errors[..n]);
      if IsDuplicatedUsername(errors[n]) then init else init + [errors[n]]
  }

  /** The first list holds exactly the duplicated-username errors, the second exactly the rest. */
  lemma {:induction false} SeparationMembership(errors: seq<ErrorV3>)
    ensures forall e :: e in DuplicatedUsernameErrors(errors) <==> e in errors && IsDuplicatedUsername(e)
    ensures forall e :: e in OtherErrors(errors) <==> e in errors && !IsDuplicatedUsername(e)
    decreases |errors|
  {
    if errors != [] {
      var n := |errors| - 1;
      SeparationMembership(errors[..n]);
      assert errors == errors[..n] + [errors[n]];
    }
  }

  /** The two lists partition the input: their lengths add up and together they hold each error as often as the input. */
  lemma {:induction false} ErrorsArePartitioned(errors: seq<ErrorV3>)
    ensures |DuplicatedUsernameErrors(errors)| + |OtherErrors(errors)| == |errors|
    ensures multiset(DuplicatedUsernameErrors(errors)) + multiset(OtherErrors(errors)) == multiset(errors)
    decreases |errors|
  {
    if errors != [] {
      var n := |errors| - 1;
      ErrorsArePartitioned(errors[..n]);
      assert errors == errors[..n] + [errors[n]];
    }
  }

  /** Appending one error extends exactly one of the two lists. */
  lemma SeparationSnoc(xs: seq<ErrorV3>, x: ErrorV3)
    ensures DuplicatedUsernameErrors(xs + [x]) == DuplicatedUsernameErrors(xs) + DuplicatedUsernameErrors([x])
    ensures OtherErrors(xs + [x]) == OtherErrors(xs) + OtherErrors([x])
  {
    assert (xs + [x])[..|xs|] == xs;
    assert [x][..0] == [];
  }

  /** Filtering distributes over concatenation, so the duplicated-username list keeps the input order. */
  lemma {:induction false} DuplicatedUsernameErrorsDistribute(a: seq<ErrorV3>, b: seq<ErrorV3>)
    ensures DuplicatedUsernameErrors(a + b) == DuplicatedUsernameErrors(a) + DuplicatedUsernameErrors(b)
    decreases |b|
  {
    if b == [] {
      assert a + b == a;
    } else {
      var n := |b| - 1;
      var front, x := b[..n], b[n];
      calc {
        DuplicatedUsernameErrors(a + b);
        { assert a + b == (a + front) + [x]; }
        DuplicatedUsernameErrors((a + front) + [x]);
        { SeparationSnoc(a + front, x); }
        DuplicatedUsernameErrors(a + front) + DuplicatedUsernameErrors([x]);
        { DuplicatedUsernameErrorsDistribute(a, front); }
        DuplicatedUsernameErrors(a) + DuplicatedUsernameErrors(front) + DuplicatedUsernameErrors([x]);
        { SeparationSnoc(front, x); assert front + [x] == b; }
        DuplicatedUsernameErrors(a) + DuplicatedUsernameErrors(b);
      }
    }
  }

  /** Likewise, the list of other errors keeps the input order. */
  lemma {:induction false} OtherErrorsDistribute(a: seq<ErrorV3>, b: seq<ErrorV3>)
    ensures OtherErrors(a + b) == OtherErrors(a) + OtherErrors(b)
    decreases |b|
  {
    if b == [] {
      assert a + b == a;
    } else {
      var n := |b| - 1;
      var front, x := b[..n], b[n];
      calc {
        OtherErrors(a + b);
        { assert a + b == (a + front) + [x]; }
        OtherErrors((a + front) + [x]);
        { SeparationSnoc(a + front, x); }
        OtherErrors(a + front) + OtherErrors([x]);
        { OtherErrorsDistribute(a, front); }
        OtherErrors(a) + OtherErrors(front) + OtherErrors([x]);
        { SeparationSnoc(front, x); assert front + [x] == b; }
        OtherErrors(a) + OtherErrors(b);
      }
    }
  }

  /**
   * `separateErrorsBasedOnErrorCode`: the errors to render as HTML (the
   * duplicated-username ones) and the rest, each in input order.
   */
  method SeparateErrorsBasedOnErrorCode(errors: seq<ErrorV3>)
    returns (forDangerouslySetInnerHTML: seq<ErrorV3>, loginErrorList: seq<ErrorV3>)
    ensures forDangerouslySetInnerHTML == DuplicatedUsernameErrors(errors)
    ensures loginErrorList == OtherErrors(errors)
    ensures forall e :: e in forDangerouslySetInnerHTML ==> IsDuplicatedUsername(e)
    ensures forall e :: e in loginErrorList ==> !IsDuplicatedUsername(e)
  {
    forDangerouslySetInnerHTML := [];
    loginErrorList := [];
    var i := 0;
    while i < |errors|
      invariant 0 <= i <= |errors|
      invariant forDangerouslySetInnerHTML == DuplicatedUsernameErrors(errors[..i])
      invariant loginErrorList == OtherErrors(errors[..i])
    {
      var err := errors[i];
      assert errors[..i + 1][..i] == errors[..i];
      if err.code == ProviderDuplicatedUsernameException {
        forDangerouslySetInnerHTML := forDangerouslySetInnerHTML + [err];
      } else {
        loginErrorList := loginErrorList + [err];
      }
      i := i + 1;
    }
    assert errors[..i] == errors;
    SeparationMembership(errors);
  }

  /** The errors shown as text: the other login errors, then the external-account error when there is one. */
  function SafelyShownErrors(loginErrors: seq<ErrorV3>, externalAccountLoginError: Option<ErrorV3>): (shown: seq<ErrorV3>)
    ensures |shown| == |OtherErrors(loginErrors)| + (if externalAccountLoginError.Some? then 1 else 0)
    ensures shown[..|OtherErrors(loginErrors)|] == OtherErrors(loginErrors)
    ensures externalAccountLoginError.Some? ==> shown[|shown| - 1] == externalAccountLoginError.value
    ensures forall e :: e in shown ==> !IsDuplicatedUsername(e) || Some(e) == externalAccountLoginError
  {
    SeparationMembership(loginErrors);
    var others := OtherErrors(loginErrors);
    if externalAccountLoginError.Some? then others + [externalAccountLoginError.value] else others
  }

  // ---------------------------------------------------------------------
  // Gating rules
  // ---------------------------------------------------------------------

  /** `isRegistrationEnabled`: registration needs the local strategy and a mode that is open or restricted. */
  function IsRegistrationEnabled(isLocalStrategySetup: bool, registrationMode: RegistrationMode): (enabled: bool)
    ensures enabled ==> isLocalStrategySetup && registrationMode != Closed
    ensures isLocalStrategySetup && (registrationMode == Open || registrationMode == Restricted) ==> enabled
  {
    isLocalStrategySetup && registrationMode != Closed
  }

  /** The path the register form posts to. */
  function RegisterAction(isEmailAuthenticationEnabled: bool): (path: string)
    ensures path == USER_ACTIVATION_REGISTER_PATH <==> isEmailAuthenticationEnabled
    ensures path == REGISTER_PATH <==> !isEmailAuthenticationEnabled
  {
    if isEmailAuthenticationEnabled then USER_ACTIVATION_REGISTER_PATH else REGISTER_PATH
  }

  /** One entry of `objOfIsExternalAuthEnableds`, in key order. */
  datatype ProviderFlag = ProviderFlag(auth: string, enabled: bool)

  /** `isSomeExternalAuthEnabled`: some provider flag is set. */
  predicate IsSomeExternalAuthEnabled(providers: seq<ProviderFlag>)
  {
    exists i :: 0 <= i < |providers| && providers[i].enabled
  }

  /** The providers that get a sign-in button, in key order. */
  function ExternalAuthButtons(providers: seq<ProviderFlag>): (buttons: seq<string>)
    ensures forall a :: a in buttons <==> exists i :: 0 <= i < |providers| && providers[i].enabled && providers[i].auth == a
    decreases |providers|
  {
    if providers == [] then []
    else
      var n := |providers| - 1;
      var init := ExternalAuthButtons(providers[..n]);
      assert forall i :: 0 <= i < n ==> providers[..n][i] == providers[i];
      if providers[n].enabled then init + [providers[n].auth] else init
  }

  /** The external-auth section has a button exactly when it is shown at all. */
  lemma ExternalAuthShownIffSomeButton(providers: seq<ProviderFlag>)
    ensures IsSomeExternalAuthEnabled(providers) <==> |ExternalAuthButtons(providers)| > 0
  {
    var buttons := ExternalAuthButtons(providers);
    if IsSomeExternalAuthEnabled(providers) {
      var i :| 0 <= i < |providers| && providers[i].enabled;
      assert providers[i].auth in buttons;
    }
    if |buttons| > 0 {
      assert buttons[0] in buttons;
    }
  }

  /** The register submit button is disabled while loading, and when email authentication is on without a mailer. */
  function IsRegisterSubmitDisabled(isMailerSetup: Option<bool>, isEmailAuthenticationEnabled: bool, isLoading: bool): (disabled: bool)
    ensures isLoading ==> disabled
    ensures !isEmailAuthenticationEnabled ==> disabled == isLoading
    ensures isMailerSetup == Some(true) ==> disabled == isLoading
    ensures isEmailAuthenticationEnabled && isMailerSetup != Some(true) ==> disabled
  {
    var mailerSetup := isMailerSetup.Some? && isMailerSetup.value;
    (!mailerSetup && isEmailAuthenticationEnabled) || isLoading
  }

  /** The complete-registration screen replaces the form after a restricted registration without email authentication. */
  function ShowsCompleteRegistration(registrationMode: RegistrationMode, isSuccessToRegistration: bool, isEmailAuthenticationEnabled: bool): (shown: bool)
    ensures shown ==> registrationMode == Restricted && isSuccessToRegistration
    ensures isEmailAuthenticationEnabled ==> !shown
    ensures registrationMode == Restricted && isSuccessToRegistration && !isEmailAuthenticationEnabled ==> shown
  {
    registrationMode == Restricted && isSuccessToRegistration && !isEmailAuthenticationEnabled
  }

  /**
   * The complete-registration screen follows only a registration posted to
   * the plain register path, never one posted to user activation.
   */
  lemma CompleteRegistrationFollowsPlainRegister(registrationMode: RegistrationMode, isSuccessToRegistration: bool,
                                                 isEmailAuthenticationEnabled: bool)
    requires ShowsCompleteRegistration(registrationMode, isSuccessToRegistration, isEmailAuthenticationEnabled)
    ensures RegisterAction(isEmailAuthenticationEnabled) == REGISTER_PATH
    ensures registrationMode != Closed
  {
  }

  /** What the front of the card shows. */
  datatype FrontSections = FrontSections(localOrLdapForm: bool, externalAuth: bool, passwordReset: bool, signUpLink: bool)

  function Front(isLocalStrategySetup: bool, isLdapStrategySetup: bool, isPasswordResetEnabled: bool,
                 registrationMode: RegistrationMode, providers: seq<ProviderFlag>): (f: FrontSections)
    ensures f.localOrLdapForm <==> isLocalStrategySetup || isLdapStrategySetup
    ensures f.passwordReset <==> (isLocalStrategySetup || isLdapStrategySetup) && isPasswordResetEnabled
    ensures f.passwordReset ==> f.localOrLdapForm
    ensures f.signUpLink <==> IsRegistrationEnabled(isLocalStrategySetup, registrationMode)
    ensures f.externalAuth <==> |ExternalAuthButtons(providers)| > 0
  {
    ExternalAuthShownIffSomeButton(providers);
    var localOrLdap := isLocalStrategySetup || isLdapStrategySetup;
    FrontSections(localOrLdap, IsSomeExternalAuthEnabled(providers), localOrLdap && isPasswordResetEnabled,
      IsRegistrationEnabled(isLocalStrategySetup, registrationMode))
  }

  /** A sign-up link is never offered when registration is closed or the local strategy is missing. */
  lemma NoSignUpWhenClosed(isLocalStrategySetup: bool, isLdapStrategySetup: bool, isPasswordResetEnabled: bool,
                           registrationMode: RegistrationMode, providers: seq<ProviderFlag>)
    requires registrationMode == Closed || !isLocalStrategySetup
    ensures !Front(isLocalStrategySetup, isLdapStrategySetup, isPasswordResetEnabled, registrationMode, providers).signUpLink
  {
  }

  // ---------------------------------------------------------------------
  // Form state
  // ---------------------------------------------------------------------

  datatype LoginResponse = LoginSucceeded(redirectTo: Option<string>) | LoginFailed(errors: seq<ErrorV3>)

  /**
   * The outcome of the register request: success with an optional
   * redirect, a rejection with a list of errors, or a rejection with
   * `null`, on which the catch block's `err.length` throws in turn.
   */
  datatype RegisterResponse = Registered(redirectTo: Option<string>) | RegisterFailed(errors: seq<ErrorV3>) | RejectedWithNull

  class LoginFormState {
    var isRegistering: bool
    var isLoading: bool
    var loginErrors: seq<ErrorV3>
    var registerErrors: seq<ErrorV3>
    var emailForRegistrationOrder: string
    var isSuccessToRegistration: bool

    constructor ()
      ensures !isRegistering && !isLoading && loginErrors == [] && registerErrors == []
      ensures emailForRegistrationOrder == "" && !isSuccessToRegistration
    {
      isRegistering := false;
      isLoading := false;
      loginErrors := [];
      registerErrors := [];
      emailForRegistrationOrder := "";
      isSuccessToRegistration := false;
    }

    /** The mount effect: the `#register` hash opens the register side. */
    method OnMount(hash: string)
      modifies this`isRegistering
      ensures isRegistering == (old(isRegistering) || hash == "#register")
    {
      if hash == "#register" {
        isRegistering := true;
      }
    }

    /** `resetLoginErrors`: empties the login errors; an empty list is left as it is. */
    method ResetLoginErrors()
      modifies this`loginErrors
      ensures loginErrors == []
      ensures old(loginErrors) == [] ==> unchanged(this)
    {
      if |loginErrors| == 0 {
        return;
      }
      loginErrors := [];
    }

    method ResetRegisterErrors()
      modifies this`registerErrors
      ensures registerErrors == []
      ensures old(registerErrors) == [] ==> unchanged(this)
    {
      if |registerErrors| == 0 {
        return;
      }
      registerErrors := [];
    }

    /** `switchForm`: flips the card and clears both error lists. */
    method SwitchForm()
      modifies this`isRegistering, this`loginErrors, this`registerErrors
      ensures isRegistering == !old(isRegistering)
      ensures loginErrors == [] && registerErrors == []
    {
      isRegistering := !isRegistering;
      ResetLoginErrors();
      ResetRegisterErrors();
    }

    /**
     * The login submit handler: a success navigates to the returned path or
     * to "/", a failure stores the errors and stops loading.
     */
    method HandleLoginWithLocalSubmit(response: LoginResponse) returns (navigateTo: Option<string>)
      modifies this`loginErrors, this`isLoading
      ensures response.LoginSucceeded? ==> loginErrors == [] && isLoading
      ensures response.LoginSucceeded? && response.redirectTo.Some? ==> navigateTo == response.redirectTo
      ensures response.LoginSucceeded? && response.redirectTo.None? ==> navigateTo == Some(DEFAULT_REDIRECT)
      ensures response.LoginFailed? ==> loginErrors == response.errors && !isLoading && navigateTo.None?
    {
      ResetLoginErrors();
      isLoading := true;
      match response
      case LoginSucceeded(redirectTo) =>
        if redirectTo.Some? {
          return redirectTo;
        }
        return Some(DEFAULT_REDIRECT);
      case LoginFailed(errs) =>
        loginErrors := errs;
        isLoading := false;
        return None;
    }

    /**
     * The register submit handler. A success marks the registration as
     * successful, clears the errors, navigates to a returned path and, with
     * email authentication, remembers the address the activation mail went
     * to. A failure stores the errors and stops loading. A rejection with
     * `null` makes the catch block itself throw (`threw`): loading never stops.
     */
    method HandleRegisterFormSubmit(response: RegisterResponse, emailForRegister: string, isEmailAuthenticationEnabled: bool)
      returns (navigateTo: Option<string>, threw: bool)
      modifies this`emailForRegistrationOrder, this`isSuccessToRegistration, this`isLoading, this`registerErrors
      ensures threw <==> response.RejectedWithNull?
      ensures response.RejectedWithNull? ==>
                !isSuccessToRegistration && registerErrors == old(registerErrors) && isLoading
                && emailForRegistrationOrder == "" && navigateTo.None?
      ensures response.Registered? ==>
                isSuccessToRegistration && registerErrors == [] && isLoading && navigateTo == response.redirectTo
      ensures response.Registered? ==>
                emailForRegistrationOrder == (if isEmailAuthenticationEnabled then emailForRegister else "")
      ensures response.RegisterFailed? ==>
                !isSuccessToRegistration && registerErrors == response.errors && !isLoading
                && emailForRegistrationOrder == "" && navigateTo.None?
    {
      emailForRegistrationOrder := "";
      isSuccessToRegistration := false;
      isLoading := true;
      navigateTo := None;
      threw := false;
      match response
      case Registered(redirectTo) =>
        isSuccessToRegistration := true;
        ResetRegisterErrors();
        if redirectTo.Some? {
          navigateTo := redirectTo;
        }
        if isEmailAuthenticationEnabled {
          emailForRegistrationOrder := emailForRegister;
          return;
        }
      case RegisterFailed(errs) =>
        registerErrors := errs;
        isLoading := false;
      case RejectedWithNull =>
        threw := true;
    }
  }
}
