/**
 * How IndexController turns a failed login into a user message.  There are
 * two tables: the form path compares the fully qualified name of the failure
 * class exactly, and the ajax path runs an ordered chain of catch clauses,
 * which also catches subclasses.
 */
module AuthErrors {
  import opened Wrappers

  /**
   * The exceptions a login attempt can raise, as a closed set.  Shiro's
   * AuthenticationException hierarchy is reduced to the classes the
   * controller names, the base class itself, and any other subclass
   * (carrying its class name); NonAuthentication is any exception outside
   * that hierarchy (an index error, a failed cast, a database error): a
   * java.lang.Exception, since catch (Exception e) does not catch a
   * java.lang.Error and this model has no kind for one.
   */
  datatype ExceptionKind =
    | UnknownAccount
    | IncorrectCredentials
    | ExcessiveAttempts
    | LockedAccount
    | Authentication
    | OtherAuthentication(className: string)
    | NonAuthentication(className: string)

  /** The classes named in a catch clause of the ajax login, in source order. */
  datatype CatchClass =
    | UnknownAccountClass
    | IncorrectCredentialsClass
    | ExcessiveAttemptsClass
    | LockedAccountClass
    | AuthenticationClass
    | ExceptionClass

  const UnknownAccountName := "org.apache.shiro.authc.UnknownAccountException"
  const IncorrectCredentialsName := "org.apache.shiro.authc.IncorrectCredentialsException"
  const ExcessiveAttemptsName := "org.apache.shiro.authc.ExcessiveAttemptsException"
  const LockedAccountName := "org.apache.shiro.authc.LockedAccountException"
  const AuthenticationName := "org.apache.shiro.authc.AuthenticationException"

  // User-facing messages.
  const BadCredentialsText := "用户名/密码错误"
  const LockedText := "账号被锁定"
  const FormOtherText := "认证用户错误"
  const AjaxOtherAuthText := "登录认证错误"
  const ServerBusyText := "服务器忙"

  predicate IsNamedClass(name: string) {
    name in {UnknownAccountName, IncorrectCredentialsName, ExcessiveAttemptsName,
             LockedAccountName, AuthenticationName}
  }

  /** A kind whose carried class name does not pretend to be one of the named classes. */
  predicate WellFormedKind(k: ExceptionKind) {
    match k
    case OtherAuthentication(n) => !IsNamedClass(n)
    case NonAuthentication(n) => !IsNamedClass(n)
    case _ => true
  }

  /** Class.getName() of the exception. */
  function ClassName(k: ExceptionKind): (n: string)
    requires WellFormedKind(k)
    ensures IsNamedClass(n) <==> !(k.OtherAuthentication? || k.NonAuthentication?)
  {
    match k
    case UnknownAccount => UnknownAccountName
    case IncorrectCredentials => IncorrectCredentialsName
    case ExcessiveAttempts => ExcessiveAttemptsName
    case LockedAccount => LockedAccountName
    case Authentication => AuthenticationName
    case OtherAuthentication(n) => n
    case NonAuthentication(n) => n
  }

  /** Java's instanceof: which catch clauses an exception of kind k matches. */
  predicate InstanceOf(k: ExceptionKind, c: CatchClass) {
    match c
    case UnknownAccountClass => k.UnknownAccount?
    case IncorrectCredentialsClass => k.IncorrectCredentials?
    case ExcessiveAttemptsClass => k.ExcessiveAttempts?
    case LockedAccountClass => k.LockedAccount?
    case AuthenticationClass => !k.NonAuthentication?
    case ExceptionClass => true
  }

  /** What a catch clause puts into the reply. */
  datatype Handler = Fixed(text: string) | OwnMessage

  /** The catch clauses of ajaxlogin, in the order they are written. */
  const AjaxCatchChain: seq<(CatchClass, Handler)> := [
    (UnknownAccountClass, Fixed(BadCredentialsText)),
    (IncorrectCredentialsClass, Fixed(BadCredentialsText)),
    (ExcessiveAttemptsClass, OwnMessage),
    (LockedAccountClass, Fixed(LockedText)),
    (AuthenticationClass, Fixed(AjaxOtherAuthText)),
    (ExceptionClass, Fixed(ServerBusyText))
  ]

  /**
   * The index of the first catch clause in chain[from..] that matches k, as
   * the JVM picks it.
   */
  function FirstCatch(chain: seq<(CatchClass, Handler)>, k: ExceptionKind, from: nat): (r: Option<nat>)
    requires from <= |chain|
    decreases |chain| - from
    ensures r.Some? ==> from <= r.value < |chain| && InstanceOf(k, chain[r.value].0)
    ensures r.Some? ==> forall j :: from <= j < r.value ==> !InstanceOf(k, chain[j].0)
    ensures r.None? <==> forall j :: from <= j < |chain| ==> !InstanceOf(k, chain[j].0)
  {
    if from == |chain| then None
    else if InstanceOf(k, chain[from].0) then Some(from)
    else FirstCatch(chain, k, from + 1)
  }

  /** The catch clause of ajaxlogin that handles an exception of kind k. */
  function ClauseFor(k: ExceptionKind): nat {
    match k
    case UnknownAccount => 0
    case IncorrectCredentials => 1
    case ExcessiveAttempts => 2
    case LockedAccount => 3
    case Authentication => 4
    case OtherAuthentication(_) => 4
    case NonAuthentication(_) => 5
  }

  /** Every exception is caught, by the clause ClauseFor names. */
  lemma AjaxCatchIndex(k: ExceptionKind)
    ensures ClauseFor(k) < |AjaxCatchChain|
    ensures FirstCatch(AjaxCatchChain, k, 0) == Some(ClauseFor(k))
  {
    var c := ClauseFor(k);
    assert InstanceOf(k, AjaxCatchChain[c].0);
    var r := FirstCatch(AjaxCatchChain, k, 0);
    assert r.Some?;
    assert forall j :: 0 <= j < c ==> !InstanceOf(k, AjaxCatchChain[j].0);
  }

  /**
   * The message the ajax login replies with when the login throws an
   * exception of kind k whose getMessage() is exMessage (None for null).
   */
  function AjaxErrorMessage(k: ExceptionKind, exMessage: Option<string>): (m: Option<string>)
    ensures k.UnknownAccount? || k.IncorrectCredentials? ==> m == Some(BadCredentialsText)
    ensures k.ExcessiveAttempts? ==> m == exMessage
    ensures k.LockedAccount? ==> m == Some(LockedText)
    ensures k.Authentication? || k.OtherAuthentication? ==> m == Some(AjaxOtherAuthText)
    ensures k.NonAuthentication? ==> m == Some(ServerBusyText)
  {
    var i := FirstCatch(AjaxCatchChain, k, 0);
    AjaxCatchIndex(k);
    match AjaxCatchChain[i.value].1
    case Fixed(text) => Some(text)
    case OwnMessage => exMessage
  }

  /** The result of shiroFilterLogin: the view name and the model's errorMessage attribute, if one is added. */
  datatype FormPage = FormPage(view: string, errorMessage: Option<string>)

  /**
   * The form login page: failure is the request attribute shiroLoginFailure,
   * the failure class name or null, compared by exact string equality.
   */
  function FormLogin(failure: Option<string>): (p: FormPage)
    ensures p.view == "login"
    ensures p.errorMessage.None? <==> failure.None?
    ensures failure.Some? ==>
      (p.errorMessage.value ==
        if failure.value in {UnknownAccountName, IncorrectCredentialsName, AuthenticationName} then BadCredentialsText
        else if failure.value == LockedAccountName then LockedText
        else FormOtherText)
  {
    if failure.None? then FormPage("login", None)
    else
      var name := failure.value;
      var msg :=
        if name == UnknownAccountName then BadCredentialsText
        else if name == IncorrectCredentialsName then BadCredentialsText
        else if name == LockedAccountName then LockedText
        else if name == AuthenticationName then BadCredentialsText
        else FormOtherText;
      FormPage("login", Some(msg))
  }

  /** The message the form page shows for an exception of kind k. */
  function FormErrorMessage(k: ExceptionKind): string
    requires WellFormedKind(k)
  {
    var p := FormLogin(Some(ClassName(k)));
    p.errorMessage.value
  }

  /**
   * Where the two tables agree and where they differ, for every kind of
   * exception the form filter could record by name.
   */
  lemma TablesCompared(k: ExceptionKind, exMessage: Option<string>)
    requires WellFormedKind(k)
    ensures k.UnknownAccount? || k.IncorrectCredentials? || k.LockedAccount? ==>
      Some(FormErrorMessage(k)) == AjaxErrorMessage(k, exMessage)
    ensures k.ExcessiveAttempts? ==>
      FormErrorMessage(k) == FormOtherText && AjaxErrorMessage(k, exMessage) == exMessage
    ensures k.Authentication? ==>
      FormErrorMessage(k) == BadCredentialsText && AjaxErrorMessage(k, exMessage) == Some(AjaxOtherAuthText)
    ensures k.OtherAuthentication? ==>
      FormErrorMessage(k) == FormOtherText && AjaxErrorMessage(k, exMessage) == Some(AjaxOtherAuthText)
    ensures k.NonAuthentication? ==>
      FormErrorMessage(k) == FormOtherText && AjaxErrorMessage(k, exMessage) == Some(ServerBusyText)
  {
  }

  /**
   * Exact-name matching ignores subclasses: LockedAccountException and
   * ExcessiveAttemptsException are both AuthenticationExceptions, yet on the
   * form path only the base class's own name gives the credentials text.
   */
  lemma FormMatchingIgnoresSubclasses()
    ensures InstanceOf(ExcessiveAttempts, AuthenticationClass)
    ensures FormLogin(Some(ExcessiveAttemptsName)).errorMessage == Some(FormOtherText)
    ensures FormLogin(Some(AuthenticationName)).errorMessage == Some(BadCredentialsText)
  {
  }

  /**
   * Catch order decides the ajax message: the excessive-attempts and locked
   * clauses come before the AuthenticationException clause that also matches.
   */
  lemma {:induction false} AjaxCatchOrderDecides(k: ExceptionKind, exMessage: Option<string>)
    requires k.ExcessiveAttempts? || k.LockedAccount?
    ensures InstanceOf(k, AuthenticationClass)
    ensures FirstCatch(AjaxCatchChain, k, 0) == Some(if k.ExcessiveAttempts? then 2 else 3)
    ensures AjaxErrorMessage(k, exMessage) != Some(AjaxOtherAuthText) ||
      (k.ExcessiveAttempts? && exMessage == Some(AjaxOtherAuthText))
  {
    AjaxCatchIndex(k);
  }
}
