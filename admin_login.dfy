/** The admin login form: the password field, the error line, and the submit
    handler that calls the context's `login`. */
module AdminLogin {
  import opened JsString
  import opened AdminContext

  class LoginForm {
    const ctx: Provider
    var password: string
    var error: string

    constructor (ctx: Provider)
      ensures this.ctx == ctx && password == "" && error == ""
    {
      this.ctx := ctx;
      password := "";
      error := "";
    }

    /** The password input's change handler. */
    method ChangePassword(value: string)
      modifies this`password
      ensures password == value
    {
      password := value;
    }

    /** `handleSubmit`: the error is cleared first; a blank password is
        refused without calling `login`; otherwise the untrimmed password goes
        to `login`, and a refusal shows "Invalid password". */
    method HandleSubmit()
      requires ctx.Valid()
      modifies this`error, ctx, ctx.storage
      ensures ctx.Valid() && ctx.aboutUs == old(ctx.aboutUs)
      ensures IsBlank(password) ==>
        && error == "Password is required"
        && ctx.isAuthenticated == old(ctx.isAuthenticated)
        && ctx.storage.items == old(ctx.storage.items)
      ensures !IsBlank(password) ==>
        && error == (if password == Password then "" else "Invalid password")
        && ctx.isAuthenticated == (old(ctx.isAuthenticated) || password == Password)
        && ctx.storage.items ==
             if password == Password then old(ctx.storage.items)[AuthKey := "true"]
             else old(ctx.storage.items)
    {
      error := "";
      if IsBlank(password) {
        error := "Password is required";
        return;
      }
      var success := ctx.Login(password);
      if !success {
        error := "Invalid password";
      }
    }
  }

  /** The password is compared untrimmed and case-sensitively: padded or
      differently cased versions of it reach `login` and are refused. */
  lemma NearMissesReachLoginAndFail()
    ensures !IsBlank(" KLPD") && " KLPD" != Password
    ensures !IsBlank("KLPD ") && "KLPD " != Password
    ensures !IsBlank("klpd") && "klpd" != Password
  {
    NotBlankWhenVisible(" KLPD", 1);
    NotBlankWhenVisible("KLPD ", 0);
    NotBlankWhenVisible("klpd", 0);
  }

  /** The password itself is not blank, so it always reaches `login`. */
  lemma PasswordIsNotBlank()
    ensures !IsBlank(Password)
  {
    NotBlankWhenVisible(Password, 0);
  }
}
