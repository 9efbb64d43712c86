/** domain/user.go: the user entity, the request payloads of the user
    endpoints with their trimming and validation rules, and the mappers
    `ToUser` and `ToResponse`.

    Validation follows the `validate` struct tags under the rules of
    go-playground/validator: `required` on a string means non-empty, `min`
    and `max` count characters (runes), `eqfield` is equality with the named
    field, `containsany` asks for one of the listed characters. The `email`
    rule is a regular expression that is not part of this model; it is the
    parameter `isEmail`. */
module DomainUser {
  import opened Results
  import opened Uuids
  import opened GoStrings
  import opened Validators

  /** Wall-clock instants (`time.Now()`), kept abstract. */
  type Instant = int

  datatype User = User(
    id: Uuid,
    name: string,
    username: string,
    email: string,
    passwordHash: string,
    emailConfirmed: bool,
    avatarUrl: string,
    createdAt: Instant)

  datatype UserResponse = UserResponse(id: string, name: string, email: string, avatarUrl: string)

  datatype UserPayload = UserPayload(
    name: string,
    email: string,
    confirmEmail: string,
    password: string,
    confirmPassword: string)

  datatype SignInPayload = SignInPayload(email: string, password: string)

  datatype UpdateNamePayload = UpdateNamePayload(name: string)

  datatype UpdatePasswordPayload = UpdatePasswordPayload(oldPassword: string, newPassword: string, confirmPassword: string)

  datatype ResendCodePayload = ResendCodePayload(email: string)

  datatype ConfirmEmailPayload = ConfirmEmailPayload(otp: string)

  /** A payload after `Validate`: Go's `Validate` trims the receiver in place
      and reports whether the struct rules hold. */
  datatype Checked<T> = Checked(payload: T, ok: bool)

  /** `validate:"min=lo,max=hi"` on a string. */
  predicate LengthIn(s: string, lo: nat, hi: nat) {
    lo <= |s| <= hi
  }

  /** `containsany=!@#&?`. */
  predicate HasSpecialChar(s: string) {
    exists i :: 0 <= i < |s| && s[i] in "!@#&?"
  }

  /** The password rule shared by sign-up and password change:
      `required,min=8,max=255,containsany=!@#&?`. */
  predicate StrongPassword(p: string) {
    LengthIn(p, 8, 255) && HasSpecialChar(p)
  }

  function TrimUser(p: UserPayload): UserPayload {
    p.(name := TrimSpace(p.name), email := TrimSpace(p.email), confirmEmail := TrimSpace(p.confirmEmail))
  }

  /** `UserPayLoad.Validate`. */
  function ValidateUser(p: UserPayload, isEmail: string -> bool): (c: Checked<UserPayload>)
    ensures c.payload == TrimUser(p)
    ensures c.ok <==>
      && 1 <= |c.payload.name| <= 75
      && c.payload.email != "" && isEmail(c.payload.email)
      && c.payload.confirmEmail != "" && isEmail(c.payload.confirmEmail)
      && c.payload.confirmEmail == c.payload.email
      && StrongPassword(p.password)
      && p.confirmPassword != "" && p.confirmPassword == p.password
  {
    var t := TrimUser(p);
    Checked(t,
      && LengthIn(t.name, 1, 75)
      && t.email != "" && isEmail(t.email)
      && t.confirmEmail != "" && isEmail(t.confirmEmail) && t.confirmEmail == t.email
      && t.password != "" && StrongPassword(t.password)
      && t.confirmPassword != "" && t.confirmPassword == t.password)
  }

  /** Validating an already validated payload changes nothing: trimming is
      idempotent, so the verdict and the payload are the same. */
  lemma ValidateUserIdempotent(p: UserPayload, isEmail: string -> bool)
    ensures ValidateUser(ValidateUser(p, isEmail).payload, isEmail) == ValidateUser(p, isEmail)
  {
    TrimSpaceIdempotent(p.name);
    TrimSpaceIdempotent(p.email);
    TrimSpaceIdempotent(p.confirmEmail);
  }

  /** Surrounding white space never decides the verdict on the trimmed
      fields: a name of blanks is rejected and a padded name is accepted
      exactly like its trimmed form. */
  lemma ValidateUserSeesTrimmed(p: UserPayload, isEmail: string -> bool)
    ensures ValidateUser(p, isEmail).ok == ValidateUser(TrimUser(p), isEmail).ok
  {
    TrimSpaceIdempotent(p.name);
    TrimSpaceIdempotent(p.email);
    TrimSpaceIdempotent(p.confirmEmail);
  }

  /** `SignInPayLoad.Validate`: email trimmed, `required,email`; password
      `required`. */
  function ValidateSignIn(p: SignInPayload, isEmail: string -> bool): (c: Checked<SignInPayload>)
    ensures c.payload == p.(email := TrimSpace(p.email))
    ensures c.ok <==> c.payload.email != "" && isEmail(c.payload.email) && p.password != ""
  {
    var t := p.(email := TrimSpace(p.email));
    Checked(t, t.email != "" && isEmail(t.email) && t.password != "")
  }

  /** Validating a validated sign-in payload changes nothing. */
  lemma ValidateSignInIdempotent(p: SignInPayload, isEmail: string -> bool)
    ensures ValidateSignIn(ValidateSignIn(p, isEmail).payload, isEmail) == ValidateSignIn(p, isEmail)
  {
    TrimSpaceIdempotent(p.email);
  }

  /** White space typed around the e-mail address never changes the
      sign-in verdict or the address looked up. */
  lemma ValidateSignInIgnoresPadding(p: SignInPayload, isEmail: string -> bool, pre: string, post: string)
    requires AllSpace(pre) && AllSpace(post)
    ensures ValidateSignIn(p.(email := pre + p.email + post), isEmail) == ValidateSignIn(p, isEmail)
  {
    TrimSpacePadded(pre, p.email, post);
  }

  /** `UpdateNamePayload.Validate`: name trimmed, 1 to 100 characters. */
  function ValidateUpdateName(p: UpdateNamePayload): (c: Checked<UpdateNamePayload>)
    ensures c.payload.name == TrimSpace(p.name)
    ensures c.ok <==> 1 <= |c.payload.name| <= 100
  {
    var t := UpdateNamePayload(TrimSpace(p.name));
    Checked(t, t.name != "" && LengthIn(t.name, 1, 100))
  }

  /** White space around a new name never changes the verdict or the
      name stored. */
  lemma ValidateUpdateNameIgnoresPadding(name: string, pre: string, post: string)
    requires AllSpace(pre) && AllSpace(post)
    ensures ValidateUpdateName(UpdateNamePayload(pre + name + post)) == ValidateUpdateName(UpdateNamePayload(name))
  {
    TrimSpacePadded(pre, name, post);
  }

  /** `UpdatePasswordPayload.Validate`: no trimming at all, so white space
      around a password is part of it. */
  function ValidateUpdatePassword(p: UpdatePasswordPayload): (c: Checked<UpdatePasswordPayload>)
    ensures c.payload == p
    ensures c.ok <==> p.oldPassword != "" && StrongPassword(p.newPassword) && p.confirmPassword == p.newPassword
  {
    Checked(p,
      && p.oldPassword != ""
      && p.newPassword != "" && StrongPassword(p.newPassword)
      && p.confirmPassword != "" && p.confirmPassword == p.newPassword)
  }

  /** `ResendCodePayload.Validate`: email trimmed, `required,email`. */
  function ValidateResendCode(p: ResendCodePayload, isEmail: string -> bool): (c: Checked<ResendCodePayload>)
    ensures c.payload.email == TrimSpace(p.email)
    ensures c.ok <==> c.payload.email != "" && isEmail(c.payload.email)
  {
    var t := ResendCodePayload(TrimSpace(p.email));
    Checked(t, t.email != "" && isEmail(t.email))
  }

  /** Validating a validated resend payload changes nothing. */
  lemma ValidateResendCodeIdempotent(p: ResendCodePayload, isEmail: string -> bool)
    ensures ValidateResendCode(ValidateResendCode(p, isEmail).payload, isEmail) == ValidateResendCode(p, isEmail)
  {
    TrimSpaceIdempotent(p.email);
  }

  /** White space typed around the e-mail address never changes the
      resend verdict or the address the code is sent to. */
  lemma ValidateResendCodeIgnoresPadding(p: ResendCodePayload, isEmail: string -> bool, pre: string, post: string)
    requires AllSpace(pre) && AllSpace(post)
    ensures ValidateResendCode(ResendCodePayload(pre + p.email + post), isEmail) == ValidateResendCode(p, isEmail)
  {
    TrimSpacePadded(pre, p.email, post);
  }

  /** `ConfirmEmailPayload.Validate`: `required,numeric,min=6,max=6`, with
      `numeric` bound to `IsNumeric`; no trimming. */
  function ValidateConfirmEmail(p: ConfirmEmailPayload): (c: Checked<ConfirmEmailPayload>)
    ensures c.payload == p
    ensures c.ok <==> |p.otp| == 6 && forall i :: 0 <= i < 6 ==> '0' <= p.otp[i] <= '9'
  {
    Checked(p, p.otp != "" && IsNumeric(p.otp) && LengthIn(p.otp, 6, 6))
  }

  /** `UserPayLoad.ToUser`: a fresh account, not yet confirmed, whose
      user name is its email. `id` and `now` are `uuid.New()` and
      `time.Now()`. */
  function ToUser(p: UserPayload, passwordHash: string, id: Uuid, now: Instant): (u: User)
    ensures u.id == id && u.createdAt == now
    ensures u.name == p.name && u.email == p.email && u.username == p.email
    ensures u.passwordHash == passwordHash
    ensures !u.emailConfirmed && u.avatarUrl == ""
  {
    User(id, p.name, p.email, p.email, passwordHash, false, "", now)
  }

  /** `User.ToResponse`: the public view of an account; the password hash
      does not appear in it. */
  function ToResponse(u: User): (r: UserResponse)
    ensures Parse(r.id) == Ok(u.id)
    ensures r.name == u.name && r.email == u.email && r.avatarUrl == u.avatarUrl
  {
    ParseFormat(u.id);
    UserResponse(Format(u.id), u.name, u.email, u.avatarUrl)
  }
}
