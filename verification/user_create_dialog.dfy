/** The "create user" form (components/users/user-create-dialog.tsx): its validation
    schema, above all the password policy. */
module UserCreateDialog {
  import Text
  import LoginRoute

  /** The special characters the policy asks for and allows. */
  const Specials := "@$!%*?&"

  predicate IsSpecial(c: char) { c in Specials }

  /** The characters `[A-Za-z\d@$!%*?&]` allows. */
  predicate Allowed(c: char) {
    Text.IsLower(c) || Text.IsUpper(c) || Text.IsDigit(c) || IsSpecial(c)
  }

  predicate HasLower(p: string) { exists i :: 0 <= i < |p| && Text.IsLower(p[i]) }
  predicate HasUpper(p: string) { exists i :: 0 <= i < |p| && Text.IsUpper(p[i]) }
  predicate HasDigit(p: string) { exists i :: 0 <= i < |p| && Text.IsDigit(p[i]) }
  predicate HasSpecial(p: string) { exists i :: 0 <= i < |p| && IsSpecial(p[i]) }

  /** `.min(8)` followed by
      `/^(?=.*[a-z])(?=.*[A-Z])(?=.*\d)(?=.*[@$!%*?&])[A-Za-z\d@$!%*?&]{8,}$/`: the four
      lookaheads ask for one character of each class somewhere, the body allows only those
      characters, eight or more of them. */
  predicate PasswordPolicy(p: string) {
    && |p| >= 8
    && HasLower(p) && HasUpper(p) && HasDigit(p) && HasSpecial(p)
    && forall i :: 0 <= i < |p| ==> Allowed(p[i])
  }

  /** What one left-to-right pass over the password sees. */
  datatype Seen = Seen(lower: bool, upper: bool, digit: bool, special: bool, other: bool)

  function Scan(p: string): Seen {
    if p == [] then Seen(false, false, false, false, false)
    else
      var c := p[0];
      var s := Scan(p[1..]);
      Seen(s.lower || Text.IsLower(c), s.upper || Text.IsUpper(c), s.digit || Text.IsDigit(c),
           s.special || IsSpecial(c), s.other || !Allowed(c))
  }

  /** A single pass recording which character classes occur decides the policy: the
      regular expression and the pass accept the same passwords. */
  lemma {:induction false} ScanDecidesPolicy(p: string)
    ensures var s := Scan(p);
            PasswordPolicy(p) <==> |p| >= 8 && s.lower && s.upper && s.digit && s.special && !s.other
  {
    ScanFlags(p);
  }

  lemma {:induction false} ScanFlags(p: string)
    ensures Scan(p).lower <==> HasLower(p)
    ensures Scan(p).upper <==> HasUpper(p)
    ensures Scan(p).digit <==> HasDigit(p)
    ensures Scan(p).special <==> HasSpecial(p)
    ensures !Scan(p).other <==> forall i :: 0 <= i < |p| ==> Allowed(p[i])
  {
    if p != [] {
      var t := p[1..];
      ScanFlags(t);
      assert forall i :: 1 <= i < |p| ==> p[i] == t[i - 1];
      assert HasLower(p) <==> Text.IsLower(p[0]) || HasLower(t) by {
        if HasLower(t) {
          var i :| 0 <= i < |t| && Text.IsLower(t[i]);
          assert p[i + 1] == t[i];
        }
      }
      assert HasUpper(p) <==> Text.IsUpper(p[0]) || HasUpper(t) by {
        if HasUpper(t) {
          var i :| 0 <= i < |t| && Text.IsUpper(t[i]);
          assert p[i + 1] == t[i];
        }
      }
      assert HasDigit(p) <==> Text.IsDigit(p[0]) || HasDigit(t) by {
        if HasDigit(t) {
          var i :| 0 <= i < |t| && Text.IsDigit(t[i]);
          assert p[i + 1] == t[i];
        }
      }
      assert HasSpecial(p) <==> IsSpecial(p[0]) || HasSpecial(t) by {
        if HasSpecial(t) {
          var i :| 0 <= i < |t| && IsSpecial(t[i]);
          assert p[i + 1] == t[i];
        }
      }
    }
  }

  /** Both passwords of the login route satisfy the policy. */
  lemma SeededPasswordsPass()
    ensures PasswordPolicy(LoginRoute.AdminPassword)
    ensures PasswordPolicy(LoginRoute.UserPassword)
  {
    AdminPasswordPasses();
    UserPasswordPasses();
  }

  lemma AdminPasswordPasses()
    ensures PasswordPolicy(LoginRoute.AdminPassword)
  {
    var a := LoginRoute.AdminPassword;
    assert Text.IsLower(a[1]) && Text.IsUpper(a[0]) && Text.IsDigit(a[6]) && IsSpecial(a[5]);
  }

  lemma UserPasswordPasses()
    ensures PasswordPolicy(LoginRoute.UserPassword)
  {
    var u := LoginRoute.UserPassword;
    assert Text.IsLower(u[1]) && Text.IsUpper(u[0]) && Text.IsDigit(u[8]) && IsSpecial(u[7]);
  }

  /** A password without an upper-case letter is refused however long it is. */
  lemma LowerCaseOnlyRefused()
    ensures !PasswordPolicy("admin@123456!")
  {
    var p := "admin@123456!";
    assert forall i :: 0 <= i < |p| ==> !Text.IsUpper(p[i]);
  }

  datatype FormValues = FormValues(name: string, email: string, password: string, role: string, status: string)

  /** `userCreateSchema`; the e-mail format check belongs to the validation library and is
      given as its verdict. */
  predicate SchemaValid(v: FormValues, emailValid: bool) {
    && |v.name| >= 2
    && emailValid
    && PasswordPolicy(v.password)
    && (v.role == "admin" || v.role == "user")
    && (v.status == "active" || v.status == "inactive")
  }

  const Defaults := FormValues("", "", "", "user", "active")

  /** The defaults pick role "user" and status "active", but the empty name and password
      keep the untouched form from being submitted. */
  lemma DefaultsRefused(emailValid: bool)
    ensures Defaults.role == "user" && Defaults.status == "active"
    ensures !SchemaValid(Defaults, emailValid)
  {
  }
}
