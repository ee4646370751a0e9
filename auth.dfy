/**
 * The decisions of routes/auth.js: the login checks and their order, the remember-me
 * cookie, the post-login redirect, the registration rules and the record they create,
 * and the forgot-password update. Password hashing and comparison (bcrypt), the
 * `isEmail`/`isMobilePhone` validators, random codes and the clock are parameters.
 */
module Auth {
  import opened Wrappers
  import opened Strings
  import opened Seqs
  import opened Guards

  /** A row of the `users` table (models/User.js:5-82); `active` is the TINYINT `durum`. */
  datatype Account = Account(
    id: int,
    name: string,
    surname: string,
    email: string,
    phone: Option<string>,
    password: string,
    membership: string,
    company: Option<string>,
    taxNo: Option<string>,
    taxOffice: Option<string>,
    role: string,
    active: int,
    verificationCode: Option<string>,
    resetCode: Option<string>,
    resetExpiry: Option<int>)

  /** `User.findOne({ where: { email } })`. */
  function FindByEmail(accounts: seq<Account>, email: string): int
  {
    FirstIndex(accounts, (a: Account) => a.email == email)
  }

  // ---------------------------------------------------------------------------
  // Login: POST /auth/giris

  datatype LoginForm = LoginForm(email: string, password: string, rememberMe: bool)

  const CredentialsError := "E-posta veya şifre hatalı."
  const DisabledError := "Hesabınız devre dışı bırakılmış."

  datatype LoginOutcome =
    | LoginFormInvalid
    | LoginRefused(message: string)
    | LoggedIn(user: SessionUser)

  /** The session copy of an account (routes/auth.js:75-82). */
  function SessionUserOf(a: Account): SessionUser
  {
    SessionUser(a.id, a.name, a.surname, a.email, a.role, a.membership)
  }

  /**
   * The login checks in the order the handler makes them: the form validators, the
   * account lookup, the account status, then the password (routes/auth.js:29-72).
   */
  function DecideLogin(accounts: seq<Account>, form: LoginForm, emailValid: bool,
                       passwordMatches: (Account, string) -> bool): LoginOutcome
  {
    if !emailValid || form.password == "" then LoginFormInvalid
    else
      var i := FindByEmail(accounts, form.email);
      if i == -1 then LoginRefused(CredentialsError)
      else if accounts[i].active == 0 then LoginRefused(DisabledError)
      else if !passwordMatches(accounts[i], form.password) then LoginRefused(CredentialsError)
      else LoggedIn(SessionUserOf(accounts[i]))
  }

  /**
   * A login succeeds exactly when the form is valid, the email belongs to an account,
   * that account is enabled and the password matches; the session then holds that
   * account's fields. An unknown email and a wrong password get the same message.
   * The disabled message is given before the password is checked.
   */
  lemma LoginRules(accounts: seq<Account>, form: LoginForm, emailValid: bool,
                   passwordMatches: (Account, string) -> bool)
    ensures var o := DecideLogin(accounts, form, emailValid, passwordMatches);
      var i := FindByEmail(accounts, form.email);
      && (o.LoggedIn? <==>
            emailValid && form.password != "" && i != -1 && accounts[i].active != 0
            && passwordMatches(accounts[i], form.password))
      && (o.LoggedIn? ==> o.user == SessionUserOf(accounts[i]) && o.user.email == form.email)
      && (o.LoginRefused? && o.message == DisabledError <==>
            emailValid && form.password != "" && i != -1 && accounts[i].active == 0)
      && (emailValid && form.password != "" && i == -1 ==> o == LoginRefused(CredentialsError))
      && ((emailValid && form.password != "" && i != -1 && accounts[i].active != 0
           && !passwordMatches(accounts[i], form.password)) ==> o == LoginRefused(CredentialsError))
  {
  }

  /** `30 * 24 * 60 * 60 * 1000` ms: the remember-me cookie lifetime (routes/auth.js:85-87). */
  const RememberMeMaxAge: int := 30 * 24 * 60 * 60 * 1000

  /** `req.session.returnTo || '/'`: an absent or empty address goes home (routes/auth.js:113). */
  function RedirectAfterLogin(returnTo: Option<string>): (path: string)
    ensures returnTo.Some? && returnTo.value != "" ==> path == returnTo.value
    ensures returnTo.None? || returnTo.value == "" ==> path == HomePath
    ensures path != ""
  {
    if returnTo.Some? && returnTo.value != "" then returnTo.value else HomePath
  }

  // ---------------------------------------------------------------------------
  // Registration: POST /auth/kayit

  datatype RegistrationForm = RegistrationForm(
    name: string,
    surname: string,
    email: string,
    phone: Option<string>,
    password: string,
    passwordConfirm: string,
    membership: Option<string>,
    company: Option<string>,
    taxNo: Option<string>,
    taxOffice: Option<string>,
    kvkk: Option<string>)

  /** The validators of routes/auth.js:139-150, one per rule, in the order they are declared. */
  datatype FieldError = NameLength | SurnameLength | BadEmail | BadPhone | ShortPassword | PasswordMismatch | KvkkNotAccepted

  predicate LengthBetween(s: string, lo: nat, hi: nat)
  {
    lo <= |s| <= hi
  }

  /** `optional({ checkFalsy: true })`: an absent or empty phone is not validated. */
  predicate PhoneGiven(phone: Option<string>)
  {
    phone.Some? && phone.value != ""
  }

  /** Whether the form breaks the rule that reports `e`. */
  predicate Violates(form: RegistrationForm, emailValid: bool, phoneValid: bool, e: FieldError)
  {
    match e
    case NameLength => !LengthBetween(Trim(form.name), 2, 100)
    case SurnameLength => !LengthBetween(Trim(form.surname), 2, 100)
    case BadEmail => !emailValid
    case BadPhone => PhoneGiven(form.phone) && !phoneValid
    case ShortPassword => |form.password| < 6
    case PasswordMismatch => form.passwordConfirm != form.password
    case KvkkNotAccepted => form.kvkk != Some("on")
  }

  const RuleOrder: seq<FieldError> :=
    [NameLength, SurnameLength, BadEmail, BadPhone, ShortPassword, PasswordMismatch, KvkkNotAccepted]

  lemma EveryRuleListed()
    ensures forall e :: e in RuleOrder
  {
    forall e ensures e in RuleOrder {
      match e
      case NameLength => assert RuleOrder[0] == e;
      case SurnameLength => assert RuleOrder[1] == e;
      case BadEmail => assert RuleOrder[2] == e;
      case BadPhone => assert RuleOrder[3] == e;
      case ShortPassword => assert RuleOrder[4] == e;
      case PasswordMismatch => assert RuleOrder[5] == e;
      case KvkkNotAccepted => assert RuleOrder[6] == e;
    }
  }

  /** A rule's place among the declared validators. */
  function Rank(e: FieldError): (k: nat)
    ensures k < |RuleOrder| && RuleOrder[k] == e
  {
    match e
    case NameLength => 0
    case SurnameLength => 1
    case BadEmail => 2
    case BadPhone => 3
    case ShortPassword => 4
    case PasswordMismatch => 5
    case KvkkNotAccepted => 6
  }

  /** The declared order is the order of the ranks. */
  lemma RanksIncrease()
    ensures forall i, j :: 0 <= i < j < |RuleOrder| ==> Rank(RuleOrder[i]) < Rank(RuleOrder[j])
  {
    assert forall i :: 0 <= i < |RuleOrder| ==> Rank(RuleOrder[i]) == i;
  }

  /** `validationResult(req)`: the broken rules, each once, in declaration order. */
  function ValidationErrors(form: RegistrationForm, emailValid: bool, phoneValid: bool): (errs: seq<FieldError>)
    ensures forall e :: e in errs <==> Violates(form, emailValid, phoneValid, e)
    ensures |errs| <= |RuleOrder|
    ensures forall i, j :: 0 <= i < j < |errs| ==> Rank(errs[i]) < Rank(errs[j]) && errs[i] != errs[j]
  {
    EveryRuleListed();
    var broken := (e: FieldError) => Violates(form, emailValid, phoneValid, e);
    RanksIncrease();
    FilterKeepsIncreasing(RuleOrder, broken, (e: FieldError) => Rank(e));
    Filter(RuleOrder, broken)
  }

  const EmailTakenError := "Bu e-posta adresi zaten kullanılıyor."

  /** `RegisterFailed` is the `catch`: the database refused the row and the form is shown again. */
  datatype RegisterOutcome = RegisterInvalid(errors: seq<FieldError>) | EmailTaken | RegisterFailed | Registered(account: Account)

  /** `uyelik_tipi || 'bireysel'`. */
  function Membership(m: Option<string>): string
  {
    if m.Some? && m.value != "" then m.value else "bireysel"
  }

  /**
   * The ENUM('bireysel', 'kurumsal') value MySQL stores for the membership, matched under
   * the case-insensitive collation; `None` when it names neither and the insert fails.
   */
  function MembershipEnum(m: Option<string>): (r: Option<string>)
    ensures r.Some? ==> r.value in {"bireysel", "kurumsal"} && Lower(Membership(m)) == r.value
    ensures r.None? <==> Lower(Membership(m)) !in {"bireysel", "kurumsal"}
  {
    var v := Lower(Membership(m));
    if v == "bireysel" then Some("bireysel")
    else if v == "kurumsal" then Some("kurumsal")
    else None
  }

  lemma LowerBireysel()
    ensures Lower("bireysel") == "bireysel"
  {
    LowerKeepsLowercase("bireysel");
  }

  lemma LowerKurumsal()
    ensures Lower("kurumsal") == "kurumsal"
  {
    LowerKeepsLowercase("kurumsal");
  }

  /** A company field is kept only for `uyelik_tipi === 'kurumsal'` (routes/auth.js:187-189). */
  function CompanyField(m: Option<string>, field: Option<string>): Option<string>
  {
    if m == Some("kurumsal") then field else None
  }

  /**
   * POST /auth/kayit. The `trim()` validators also sanitise, so the stored names are
   * the trimmed ones; the role, status and the other columns take their defaults. A
   * membership outside the ENUM makes `User.create` throw.
   */
  function Register(accounts: seq<Account>, form: RegistrationForm, emailValid: bool, phoneValid: bool,
                    newId: int, verificationCode: string): RegisterOutcome
  {
    var errs := ValidationErrors(form, emailValid, phoneValid);
    if errs != [] then RegisterInvalid(errs)
    else if FindByEmail(accounts, form.email) != -1 then EmailTaken
    else if MembershipEnum(form.membership).None? then RegisterFailed
    else Registered(Account(
      newId, Trim(form.name), Trim(form.surname), form.email, form.phone, form.password,
      MembershipEnum(form.membership).value,
      CompanyField(form.membership, form.company),
      CompanyField(form.membership, form.taxNo),
      CompanyField(form.membership, form.taxOffice),
      "musteri", 1, Some(verificationCode), None, None))
  }

  /** A form passes validation exactly when it breaks none of the seven rules. */
  lemma NoErrorsIff(form: RegistrationForm, emailValid: bool, phoneValid: bool)
    ensures ValidationErrors(form, emailValid, phoneValid) == [] <==>
      && LengthBetween(Trim(form.name), 2, 100) && LengthBetween(Trim(form.surname), 2, 100)
      && emailValid && (PhoneGiven(form.phone) ==> phoneValid)
      && |form.password| >= 6 && form.passwordConfirm == form.password && form.kvkk == Some("on")
  {
    var errs := ValidationErrors(form, emailValid, phoneValid);
    if errs != [] {
      assert Violates(form, emailValid, phoneValid, errs[0]);
    } else {
      assert !Violates(form, emailValid, phoneValid, NameLength);
      assert !Violates(form, emailValid, phoneValid, SurnameLength);
      assert !Violates(form, emailValid, phoneValid, BadEmail);
      assert !Violates(form, emailValid, phoneValid, BadPhone);
      assert !Violates(form, emailValid, phoneValid, ShortPassword);
      assert !Violates(form, emailValid, phoneValid, PasswordMismatch);
      assert !Violates(form, emailValid, phoneValid, KvkkNotAccepted);
    }
  }

  /**
   * An account is created exactly when every rule holds, the email is free and the
   * membership is one of the ENUM's values; an email already in the table is refused,
   * and a valid form with any other membership fails at the insert.
   */
  lemma RegisterAcceptance(accounts: seq<Account>, form: RegistrationForm, emailValid: bool, phoneValid: bool,
                           newId: int, code: string)
    ensures var o := Register(accounts, form, emailValid, phoneValid, newId, code);
      && (o.Registered? <==>
            && LengthBetween(Trim(form.name), 2, 100) && LengthBetween(Trim(form.surname), 2, 100)
            && emailValid && (PhoneGiven(form.phone) ==> phoneValid)
            && |form.password| >= 6 && form.passwordConfirm == form.password && form.kvkk == Some("on")
            && FindByEmail(accounts, form.email) == -1
            && Lower(Membership(form.membership)) in {"bireysel", "kurumsal"})
      && (o.RegisterFailed? <==>
            && ValidationErrors(form, emailValid, phoneValid) == []
            && FindByEmail(accounts, form.email) == -1
            && Lower(Membership(form.membership)) !in {"bireysel", "kurumsal"})
      && (o.EmailTaken? ==> exists i :: 0 <= i < |accounts| && accounts[i].email == form.email)
  {
    NoErrorsIff(form, emailValid, phoneValid);
  }

  /**
   * A created account carries trimmed names of 2 to 100 characters, the email and the
   * password as given (hashing is not modelled), the membership or `bireysel`, company
   * fields only for `kurumsal`, and the `musteri` role, enabled.
   */
  lemma RegisteredRecord(accounts: seq<Account>, form: RegistrationForm, emailValid: bool, phoneValid: bool,
                         newId: int, code: string)
    ensures var o := Register(accounts, form, emailValid, phoneValid, newId, code);
      o.Registered? ==>
        && 2 <= |o.account.name| <= 100 && 2 <= |o.account.surname| <= 100
        && o.account.name == Trim(form.name) && o.account.surname == Trim(form.surname)
        && o.account.email == form.email && o.account.password == form.password
        && o.account.membership in {"bireysel", "kurumsal"}
        && (form.membership.None? ==> o.account.membership == "bireysel")
        && (form.membership != Some("kurumsal") ==>
              o.account.company.None? && o.account.taxNo.None? && o.account.taxOffice.None?)
        && (form.membership == Some("kurumsal") ==>
              o.account.membership == "kurumsal"
              && o.account.company == form.company && o.account.taxNo == form.taxNo
              && o.account.taxOffice == form.taxOffice)
        && o.account.role == "musteri" && o.account.active == 1
  {
    var o := Register(accounts, form, emailValid, phoneValid, newId, code);
    if o.Registered? {
      var m := MembershipEnum(form.membership);
      assert ValidationErrors(form, emailValid, phoneValid) == [] && m.Some?;
      assert o.account == Account(
        newId, Trim(form.name), Trim(form.surname), form.email, form.phone, form.password, m.value,
        CompanyField(form.membership, form.company), CompanyField(form.membership, form.taxNo),
        CompanyField(form.membership, form.taxOffice), "musteri", 1, Some(code), None, None);
      NoErrorsIff(form, emailValid, phoneValid);
      if form.membership.None? {
        LowerBireysel();
        assert MembershipEnum(form.membership) == Some("bireysel");
      } else if form.membership == Some("kurumsal") {
        LowerKurumsal();
        assert Membership(form.membership) == "kurumsal";
        assert MembershipEnum(form.membership) == Some("kurumsal");
      }
    }
  }

  // ---------------------------------------------------------------------------
  // Forgot password: POST /auth/sifremi-unuttum

  datatype ForgotOutcome = ForgotFormInvalid | ResetLinkSent(redirect: string)

  /** `60 * 60 * 1000` ms: a reset code lives one hour (routes/auth.js:252). */
  const ResetLifetime: int := 60 * 60 * 1000

  /**
   * A known email gets a fresh reset code expiring one hour from `now`; the answer is the
   * same flash and redirect whether or not the email is known (routes/auth.js:245-260).
   */
  function ForgotPassword(accounts: seq<Account>, email: string, emailValid: bool, now: int, code: string)
    : (r: (ForgotOutcome, seq<Account>))
    ensures |r.1| == |accounts|
  {
    if !emailValid then (ForgotFormInvalid, accounts)
    else
      var i := FindByEmail(accounts, email);
      var updated := if i == -1 then accounts
        else accounts[i := accounts[i].(resetCode := Some(code), resetExpiry := Some(now + ResetLifetime))];
      (ResetLinkSent(LoginPath), updated)
  }

  /**
   * The response does not depend on whether the email exists; only the matching account
   * changes, and only in its reset code and expiry, which is `now + 3600000`.
   */
  lemma ForgotPasswordRules(accounts: seq<Account>, others: seq<Account>, email: string, emailValid: bool,
                            now: int, code: string)
    ensures ForgotPassword(accounts, email, emailValid, now, code).0 == ForgotPassword(others, email, emailValid, now, code).0
    ensures emailValid ==> ForgotPassword(accounts, email, emailValid, now, code).0 == ResetLinkSent("/auth/giris")
    ensures var i := FindByEmail(accounts, email);
      var after := ForgotPassword(accounts, email, emailValid, now, code).1;
      && (forall j :: 0 <= j < |accounts| && j != i ==> after[j] == accounts[j])
      && (emailValid && i != -1 ==>
            after[i] == accounts[i].(resetCode := Some(code), resetExpiry := Some(now + 3600000)))
      && (!emailValid || i == -1 ==> after == accounts)
  {
  }
}
