/** How a user is named (`CustomUser.__str__`): the full name when there is
    one, else the username, else the email, else the primary key. */
module Users {
  import opened Common
  import opened Text

  /** The fields `__str__` reads; NULL is `None`, and `pk` is `None` for an
      unsaved user. */
  datatype User = User(
    firstName: Option<string>,
    lastName: Option<string>,
    username: Option<string>,
    email: Option<string>,
    pk: Option<nat>)

  /** `value or ""`. */
  function OrEmpty(v: Option<string>): (r: string)
    ensures v.Some? ==> r == v.value
    ensures v.None? ==> r == ""
  {
    if v.Some? then v.value else ""
  }

  /** f-string rendering of the primary key. */
  function RenderPk(pk: Option<nat>): string {
    if pk.Some? then NatToString(pk.value) else "None"
  }

  /** `CustomUser.__str__`: the first and last name joined by a space and
      stripped, when either is non-empty; otherwise the username, the email
      or `User <pk>`, the first that is non-empty. */
  function DisplayName(u: User): (r: string)
    ensures OrEmpty(u.firstName) != "" || OrEmpty(u.lastName) != "" ==>
              r == Strip(OrEmpty(u.firstName) + " " + OrEmpty(u.lastName))
    ensures OrEmpty(u.firstName) == "" && OrEmpty(u.lastName) == "" && OrEmpty(u.username) != "" ==>
              r == u.username.value
    ensures OrEmpty(u.firstName) == "" && OrEmpty(u.lastName) == "" && OrEmpty(u.username) == "" && OrEmpty(u.email) != "" ==>
              r == u.email.value
    ensures OrEmpty(u.firstName) == "" && OrEmpty(u.lastName) == "" && OrEmpty(u.username) == "" && OrEmpty(u.email) == "" ==>
              r == "User " + RenderPk(u.pk)
  {
    var first := OrEmpty(u.firstName);
    var last := OrEmpty(u.lastName);
    var username := OrEmpty(u.username);
    var email := OrEmpty(u.email);
    if first != "" || last != "" then Strip(first + " " + last)
    else if username != "" then username
    else if email != "" then email
    else "User " + RenderPk(u.pk)
  }

  /** Once a name is set, the username and the email play no part. */
  lemma NameIgnoresAccount(u: User, username: Option<string>, email: Option<string>)
    requires OrEmpty(u.firstName) != "" || OrEmpty(u.lastName) != ""
    ensures DisplayName(u.(username := username, email := email)) == DisplayName(u)
  {
  }

  /** With only a first name, and one without surrounding whitespace, the
      user is named by it alone: the separating space is stripped. */
  lemma FirstNameOnly(u: User)
    requires OrEmpty(u.firstName) != "" && OrEmpty(u.lastName) == ""
    requires !IsSpace(u.firstName.value[0]) && !IsSpace(u.firstName.value[|u.firstName.value| - 1])
    ensures DisplayName(u) == u.firstName.value
  {
    var first := u.firstName.value;
    assert first + " " + "" == first + [' '];
    StripTrailingSpace(first, ' ');
    StripNoop(first);
  }

  /** Only a name made of whitespace gives an empty display name: the
      fallbacks are never empty. */
  lemma EmptyOnlyFromBlankName(u: User)
    requires DisplayName(u) == ""
    ensures OrEmpty(u.firstName) != "" || OrEmpty(u.lastName) != ""
  {
  }

  /** An unsaved user with no name, username or email prints as `User None`. */
  lemma UnsavedAnonymous(u: User)
    requires OrEmpty(u.firstName) == "" && OrEmpty(u.lastName) == "" && OrEmpty(u.username) == "" && OrEmpty(u.email) == ""
    requires u.pk.None?
    ensures DisplayName(u) == "User None"
  {
  }
}
