/** Sign-up and sign-in. The serializers receive their data as a dictionary
    of field values; the password is kept as the value last given to
    `set_password`, and checking a password compares with it. */
module Accounts {
  import opened Common

  /** A field value: text, a boolean, or NULL. */
  datatype Value = Str(s: string) | Flag(b: bool) | Null

  type Data = map<string, Value>

  /** `data.get(key)` for a text field. */
  function TextOf(data: Data, key: string): (r: Option<string>)
    ensures r.Some? <==> key in data && data[key].Str?
  {
    if key in data && data[key].Str? then Some(data[key].s) else None
  }

  /** A validation error on one field. */
  datatype FieldError = FieldError(field: string, message: string)

  const PasswordRequiredMessage := "Password is required when password_confirm is provided"
  const ConfirmRequiredMessage := "Password confirmation is required when password is provided"
  const MismatchMessage := "Passwords do not match"

  /** `SignUpSerializer.validate`: a password and its confirmation go
      together and must agree; with neither the data passes as it is. */
  function ValidateSignUp(data: Data): (r: Result<Data, FieldError>)
    ensures r.Ok? ==> r.value == data
    ensures r.Ok? <==>
              (!Truthy(TextOf(data, "password")) && !Truthy(TextOf(data, "password_confirm")))
              || (Truthy(TextOf(data, "password")) && TextOf(data, "password") == TextOf(data, "password_confirm"))
    ensures !Truthy(TextOf(data, "password")) && Truthy(TextOf(data, "password_confirm")) ==>
              r == Err(FieldError("password", PasswordRequiredMessage))
    ensures Truthy(TextOf(data, "password")) && !Truthy(TextOf(data, "password_confirm")) ==>
              r == Err(FieldError("password_confirm", ConfirmRequiredMessage))
    ensures Truthy(TextOf(data, "password")) && Truthy(TextOf(data, "password_confirm"))
            && TextOf(data, "password") != TextOf(data, "password_confirm") ==>
              r == Err(FieldError("password_confirm", MismatchMessage))
  {
    var password := TextOf(data, "password");
    var confirm := TextOf(data, "password_confirm");
    if Truthy(password) || Truthy(confirm) then
      if !Truthy(password) then Err(FieldError("password", PasswordRequiredMessage))
      else if !Truthy(confirm) then Err(FieldError("password_confirm", ConfirmRequiredMessage))
      else if password != confirm then Err(FieldError("password_confirm", MismatchMessage))
      else Ok(data)
    else Ok(data)
  }

  /** What `create_user` is called with. */
  datatype NewUser = NewUser(email: Value, password: string, fields: Data)

  datatype CreateError =
    | PasswordMissing(error: FieldError)
    /** `validated_data.pop('email')` on data without an email raises `KeyError`. */
    | EmailMissing

  /** `SignUpSerializer.create`: the two password fields and the email are
      taken out; without a password nothing is created; the rest is passed
      on as the user's fields. */
  function CreateUser(validated: Data): (r: Result<NewUser, CreateError>)
    ensures r.Ok? <==> Truthy(TextOf(validated, "password")) && "email" in validated
    ensures !Truthy(TextOf(validated, "password")) ==>
              r == Err(PasswordMissing(FieldError("password", "Password is required for user creation")))
    ensures r.Ok? ==> r.value.password == validated["password"].s && r.value.email == validated["email"]
    ensures r.Ok? ==> forall k :: k in r.value.fields <==>
                        k in validated && k != "password" && k != "password_confirm" && k != "email"
    ensures r.Ok? ==> forall k :: k in r.value.fields ==> r.value.fields[k] == validated[k]
  {
    var password := TextOf(validated, "password");
    var rest := validated - {"password", "password_confirm"};
    if !Truthy(password) then Err(PasswordMissing(FieldError("password", "Password is required for user creation")))
    else if "email" !in rest then Err(EmailMissing)
    else Ok(NewUser(rest["email"], password.value, rest - {"email"}))
  }

  /** Data without a password passes validation, yet creating the user
      from it fails. */
  lemma ValidWithoutPasswordNotCreated(data: Data)
    requires !Truthy(TextOf(data, "password")) && !Truthy(TextOf(data, "password_confirm"))
    ensures ValidateSignUp(data) == Ok(data)
    ensures CreateUser(data).Err? && CreateUser(data).error.PasswordMissing?
  {
  }

  /** A stored user. */
  class Account {
    var attrs: Data
    var password: string

    constructor (attrs0: Data, password0: string)
      ensures attrs == attrs0 && password == password0
    {
      attrs := attrs0;
      password := password0;
    }

    /** `set_password`. */
    method SetPassword(raw: string)
      modifies this
      ensures password == raw && attrs == old(attrs)
    {
      password := raw;
    }

    /** `SignUpSerializer.update`: every field but the two password fields is
        assigned; the password is changed through `set_password`, and only
        when it is given and non-empty. */
    method Update(validated: Data)
      modifies this
      ensures attrs == old(attrs) + (validated - {"password", "password_confirm"})
      ensures Truthy(TextOf(validated, "password")) ==> password == validated["password"].s
      ensures !Truthy(TextOf(validated, "password")) ==> password == old(password)
    {
      var pw := TextOf(validated, "password");
      var rest := validated - {"password", "password_confirm"};
      var pending := rest.Keys;
      while pending != {}
        invariant pending <= rest.Keys
        invariant password == old(password)
        invariant attrs == old(attrs) + (rest - pending)
        decreases pending
      {
        var attr :| attr in pending;
        attrs := attrs[attr := rest[attr]];
        pending := pending - {attr};
      }
      assert rest - {} == rest;
      if Truthy(pw) {
        SetPassword(pw.value);
      }
    }
  }

  /** `password_confirm` is never stored, and fields not given keep their values. */
  lemma UpdateKeeps(before: Data, validated: Data, k: string)
    requires k !in validated || k == "password" || k == "password_confirm"
    ensures k in before + (validated - {"password", "password_confirm"}) <==> k in before
    ensures k in before ==> (before + (validated - {"password", "password_confirm"}))[k] == before[k]
  {
  }

  // ---------------------------------------------------------------------
  // Sign-in

  /** A user as sign-in sees one. */
  datatype Credentials = Credentials(id: nat, email: Option<string>, password: string)

  datatype SignInError =
    | FieldsRequired(message: string)
    | UserNotFound(message: string)
    | WrongPassword(message: string)

  const FieldsRequiredMessage := "Телефон и пароль, оба поля обязательны"
  const NotFoundMessage := "Неверные данные, пользователь не найден"
  const WrongPasswordMessage := "Неверные данные, неправильный пароль"

  /** `filter(email=identifier).first()`: the first user with that email. */
  function FirstWithEmail(users: seq<Credentials>, identifier: string): (r: Option<nat>)
    ensures r.Some? ==> r.value < |users| && users[r.value].email == Some(identifier)
                        && forall j :: 0 <= j < r.value ==> users[j].email != Some(identifier)
    ensures r.None? ==> forall j :: 0 <= j < |users| ==> users[j].email != Some(identifier)
  {
    if users == [] then None
    else if users[0].email == Some(identifier) then Some(0)
    else
      var r := FirstWithEmail(users[1..], identifier);
      if r.Some? then Some(r.value + 1) else None
  }

  /** `CustomAuthTokenSerializer.validate`. */
  function SignIn(identifier: Option<string>, password: Option<string>, users: seq<Credentials>): (r: Result<Credentials, SignInError>)
    ensures !Truthy(identifier) || !Truthy(password) ==> r == Err(FieldsRequired(FieldsRequiredMessage))
  {
    if !Truthy(identifier) || !Truthy(password) then Err(FieldsRequired(FieldsRequiredMessage))
    else
      match FirstWithEmail(users, identifier.value)
      case None => Err(UserNotFound(NotFoundMessage))
      case Some(i) =>
        if users[i].password != password.value then Err(WrongPassword(WrongPasswordMessage))
        else Ok(users[i])
  }

  /** Each failure is reached only once the earlier checks pass, and success
      yields exactly the first user with that email, whose password matches. */
  lemma SignInOutcomes(identifier: Option<string>, password: Option<string>, users: seq<Credentials>)
    ensures SignIn(identifier, password, users).Err? && SignIn(identifier, password, users).error.UserNotFound? <==>
              Truthy(identifier) && Truthy(password) && FirstWithEmail(users, identifier.value).None?
    ensures SignIn(identifier, password, users).Err? && SignIn(identifier, password, users).error.WrongPassword? <==>
              Truthy(identifier) && Truthy(password) && FirstWithEmail(users, identifier.value).Some?
              && users[FirstWithEmail(users, identifier.value).value].password != password.value
    ensures SignIn(identifier, password, users).Ok? ==>
              Truthy(identifier) && Truthy(password) && FirstWithEmail(users, identifier.value).Some?
              && SignIn(identifier, password, users).value == users[FirstWithEmail(users, identifier.value).value]
              && SignIn(identifier, password, users).value.email == identifier
              && SignIn(identifier, password, users).value.password == password.value
  {
  }

  /** With emails unique, the user signed in is the one whose email was given. */
  lemma SignInFindsOwner(identifier: string, password: string, users: seq<Credentials>, i: nat)
    requires forall a, b :: 0 <= a < b < |users| && users[a].email.Some? ==> users[a].email != users[b].email
    requires i < |users| && users[i].email == Some(identifier) && users[i].password == password
    requires identifier != "" && password != ""
    ensures SignIn(Some(identifier), Some(password), users) == Ok(users[i])
  {
    var f := FirstWithEmail(users, identifier);
    assert f.Some?;
    assert f.value <= i;
    assert users[f.value].email == users[i].email;
  }
}
