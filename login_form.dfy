/** The two-step login form (src/components/auth/LoginForm.tsx): the user enters a phone
    number, then a six-digit one-time password, and is sent to the administrator console or
    to the chat according to the role login stored. Navigation is recorded as the list of
    routes the form asked the router for. */
module Login {
  import opened Wrappers
  import opened Auth

  datatype Step = PhoneStep | OtpStep

  /** The route chosen after login from the persisted user: a missing user reads as `{}`,
      whose role is not `admin`. */
  function RedirectFor(stored: Option<User>): (route: string)
    ensures route == "/admin" <==> stored.Some? && stored.value.role == Admin
    ensures route == "/admin" || route == "/chat"
  {
    if stored.Some? && stored.value.role == Admin then "/admin" else "/chat"
  }

  class LoginForm {
    var step: Step
    var phone: string
    var otp: string
    var isSubmitting: bool
    /** The routes passed to `navigate`, oldest first. */
    var navigations: seq<string>

    constructor ()
      ensures step == PhoneStep && phone == "" && otp == "" && !isSubmitting
      ensures navigations == []
    {
      step := PhoneStep;
      phone := "";
      otp := "";
      isSubmitting := false;
      navigations := [];
    }

    /** The phone input's change handler. */
    method SetPhone(value: string)
      modifies this`phone
      ensures phone == value
    {
      phone := value;
    }

    /** The one-time-password input's change handler. */
    method SetOtp(value: string)
      modifies this`otp
      ensures otp == value
    {
      otp := value;
    }

    /** `handlePhoneSubmit`: a phone of fewer than ten characters is refused and the step
        stays where it was; otherwise the form moves to the password step. */
    method HandlePhoneSubmit() returns (accepted: bool)
      modifies this`step
      ensures accepted <==> |phone| >= 10
      ensures step == if accepted then OtpStep else old(step)
    {
      if |phone| < 10 {
        accepted := false;
        return;
      }
      accepted := true;
      step := OtpStep;
    }

    /** `handleOtpSubmit`: a password whose length is not six is refused before login is
        called; otherwise the form logs in with the phone it holds, redirects by the stored
        role, and is no longer submitting. Login itself never fails. */
    method HandleOtpSubmit(auth: AuthSession, userId: string) returns (accepted: bool)
      modifies this, auth
      ensures accepted <==> |old(otp)| == 6
      ensures step == old(step) && phone == old(phone) && otp == old(otp)
      ensures !accepted ==> navigations == old(navigations) && isSubmitting == old(isSubmitting)
      ensures !accepted ==> auth.user == old(auth.user) && auth.stored == old(auth.stored)
      ensures accepted ==> auth.user == Some(NewUser(userId, phone)) && auth.stored == auth.user
      ensures accepted ==> navigations == old(navigations) + [if RoleFor(phone) == Admin then "/admin" else "/chat"]
      ensures accepted ==> !isSubmitting
      ensures !accepted ==> auth.isLoading == old(auth.isLoading)
      ensures accepted ==> !auth.isLoading
    {
      if |otp| != 6 {
        accepted := false;
        return;
      }
      accepted := true;
      isSubmitting := true;
      auth.Login(phone, otp, userId);
      var route := RedirectFor(auth.stored);
      navigations := navigations + [route];
      isSubmitting := false;
    }

    /** `goBack`: from the password step, back to the phone step with the password
        cleared and the phone kept; from the phone step, only a navigation home. */
    method GoBack()
      modifies this
      ensures old(step) == OtpStep ==> step == PhoneStep && otp == "" && navigations == old(navigations)
      ensures old(step) == PhoneStep ==> step == PhoneStep && otp == old(otp) && navigations == old(navigations) + ["/"]
      ensures phone == old(phone) && isSubmitting == old(isSubmitting)
    {
      if step == OtpStep {
        step := PhoneStep;
        otp := "";
      } else {
        navigations := navigations + ["/"];
      }
    }
  }
}
