/**
 * Flag validation at the top of `main` (main.go:47-85): exactly one
 * authentication method, the required flags, and the protocol, checked in
 * that order of precedence. A `log.Fatal` in the source is an error result here.
 */
module Validation {
  import opened Wrappers
  import opened CommandLine

  /** Every way in which the tool refuses to build a connection configuration. */
  datatype ConfigError =
    | MultipleAuthMethods(passwordProvided: bool, privateKeyProvided: bool, authenticatorProvided: bool)
    | MissingRequiredFlags(names: seq<string>)
    | InvalidProtocol(protocol: string)
    | PrivateKeyUnreadable(reason: string)
    | PrivateKeyNotRsa
    | InvalidAuthenticator(authenticator: string)

  /** The three flags that each select an authentication method. */
  datatype AuthMethod = PasswordMethod | PrivateKeyMethod | AuthenticatorMethod

  function Credential(f: Flags, m: AuthMethod): string {
    match m
    case PasswordMethod => f.password
    case PrivateKeyMethod => f.privateKeyFile
    case AuthenticatorMethod => f.authenticator
  }

  /** The authentication methods whose flag was given a non-empty value. */
  function ProvidedMethods(f: Flags): set<AuthMethod> {
    set m | m in {PasswordMethod, PrivateKeyMethod, AuthenticatorMethod} && Credential(f, m) != ""
  }

  /** The required-flag entries, in the order in which they are reported. */
  const RequiredOrder := [AccountFlag, UserFlag, AuthMethodEntry]

  /** The entries reported as missing: a required flag left empty, or no authentication method at all. */
  function MissingFlags(f: Flags): seq<string> {
    (if f.account == "" then [AccountFlag] else [])
    + (if f.user == "" then [UserFlag] else [])
    + (if ProvidedMethods(f) == {} then [AuthMethodEntry] else [])
  }

  predicate ValidProtocol(p: string) {
    p == "https" || p == "http"
  }

  /** The first check that refuses the flags, in the precedence the tool applies, or None. */
  function FlagError(f: Flags): Option<ConfigError> {
    if |ProvidedMethods(f)| > 1 then
      Some(MultipleAuthMethods(f.password != "", f.privateKeyFile != "", f.authenticator != ""))
    else if MissingFlags(f) != [] then
      Some(MissingRequiredFlags(MissingFlags(f)))
    else if !ValidProtocol(f.protocol) then
      Some(InvalidProtocol(f.protocol))
    else
      None
  }

  /** The checks as the tool runs them: the missing list grows by appends, the method count by increments. */
  method CheckFlags(f: Flags) returns (err: Option<ConfigError>)
    ensures err == FlagError(f)
  {
    var missing: seq<string> := [];
    if f.account == "" {
      missing := missing + [AccountFlag];
    }
    if f.user == "" {
      missing := missing + [UserFlag];
    }

    var authMethodCount := 0;
    if f.password != "" {
      authMethodCount := authMethodCount + 1;
    }
    if f.privateKeyFile != "" {
      authMethodCount := authMethodCount + 1;
    }
    if f.authenticator != "" {
      authMethodCount := authMethodCount + 1;
    }
    ProvidedMethodsCount(f);
    if authMethodCount == 0 {
      missing := missing + [AuthMethodEntry];
    }
    if authMethodCount > 1 {
      return Some(MultipleAuthMethods(f.password != "", f.privateKeyFile != "", f.authenticator != ""));
    }

    assert missing == MissingFlags(f);
    if |missing| > 0 {
      return Some(MissingRequiredFlags(missing));
    }

    if f.protocol != "https" && f.protocol != "http" {
      return Some(InvalidProtocol(f.protocol));
    }
    return None;
  }

  function Indicator(s: string): nat {
    if s != "" then 1 else 0
  }

  /** The size of the provided-method set is the number of non-empty credential flags. */
  lemma ProvidedMethodsCount(f: Flags)
    ensures |ProvidedMethods(f)| == Indicator(f.password) + Indicator(f.privateKeyFile) + Indicator(f.authenticator)
  {
    var p := if f.password != "" then {PasswordMethod} else {};
    var k := if f.privateKeyFile != "" then {PrivateKeyMethod} else {};
    var a := if f.authenticator != "" then {AuthenticatorMethod} else {};
    forall m ensures m in ProvidedMethods(f) <==> m in p + k + a {
      match m
      case PasswordMethod =>
      case PrivateKeyMethod =>
      case AuthenticatorMethod =>
    }
    assert ProvidedMethods(f) == p + k + a;
    assert |p| == Indicator(f.password) && |k| == Indicator(f.privateKeyFile) && |a| == Indicator(f.authenticator);
    assert p * k == {};
    assert |p + k| == |p| + |k|;
    assert (p + k) * a == {};
    assert |p + k + a| == |p + k| + |a|;
  }

  /** Each entry is reported exactly when its condition holds. */
  lemma MissingFlagsMembership(f: Flags)
    ensures AccountFlag in MissingFlags(f) <==> f.account == ""
    ensures UserFlag in MissingFlags(f) <==> f.user == ""
    ensures AuthMethodEntry in MissingFlags(f) <==> f.password == "" && f.privateKeyFile == "" && f.authenticator == ""
    ensures MissingFlags(f) == [] <==> f.account != "" && f.user != "" && ProvidedMethods(f) != {}
  {
    assert |AccountFlag| == 17 && |UserFlag| == 14 && |AuthMethodEntry| > 20;
    ProvidedMethodsCount(f);
  }

  /** Exactly one of password, private-key file and authenticator is non-empty. */
  predicate ExactlyOneCredential(f: Flags) {
    (f.password != "" && f.privateKeyFile == "" && f.authenticator == "")
    || (f.password == "" && f.privateKeyFile != "" && f.authenticator == "")
    || (f.password == "" && f.privateKeyFile == "" && f.authenticator != "")
  }

  /** At least two of password, private-key file and authenticator are non-empty. */
  predicate SeveralCredentials(f: Flags) {
    (f.password != "" && f.privateKeyFile != "")
    || (f.password != "" && f.authenticator != "")
    || (f.privateKeyFile != "" && f.authenticator != "")
  }

  /** Position of a required-flag entry in the reporting order. */
  function Rank(name: string): nat {
    if name == AccountFlag then 0 else if name == UserFlag then 1 else 2
  }

  /** The missing entries come in the order account, user, authentication method, each at most once. */
  lemma MissingFlagsOrdered(f: Flags)
    ensures |MissingFlags(f)| <= |RequiredOrder|
    ensures forall i, j :: 0 <= i < j < |MissingFlags(f)| ==> Rank(MissingFlags(f)[i]) < Rank(MissingFlags(f)[j])
  {
  }

  /** Two or more authentication methods is reported, whatever else is wrong, and only then. */
  lemma MultipleAuthMethodsFirst(f: Flags)
    ensures SeveralCredentials(f) ==>
      FlagError(f) == Some(MultipleAuthMethods(f.password != "", f.privateKeyFile != "", f.authenticator != ""))
    ensures FlagError(f).Some? && FlagError(f).value.MultipleAuthMethods? ==> SeveralCredentials(f)
  {
    ProvidedMethodsCount(f);
  }

  /** With at most one authentication method, missing flags are reported before the protocol is looked at. */
  lemma MissingFlagsBeforeProtocol(f: Flags)
    requires !SeveralCredentials(f)
    ensures FlagError(f).Some? && FlagError(f).value.MissingRequiredFlags? <==> MissingFlags(f) != []
    ensures MissingFlags(f) != [] ==> FlagError(f) == Some(MissingRequiredFlags(MissingFlags(f)))
  {
    ProvidedMethodsCount(f);
  }

  /** The protocol is checked last: once everything else is in order, it alone decides. */
  lemma ProtocolCheckedLast(f: Flags)
    requires f.account != "" && f.user != "" && ExactlyOneCredential(f)
    ensures FlagError(f) == if ValidProtocol(f.protocol) then None else Some(InvalidProtocol(f.protocol))
  {
    ProvidedMethodsCount(f);
  }

  /**
   * The flags pass exactly when account and user are given, exactly one
   * authentication method is given, and the protocol is "http" or "https".
   */
  lemma FlagsAcceptedIff(f: Flags)
    ensures FlagError(f) == None <==>
      f.account != "" && f.user != "" && ExactlyOneCredential(f) && ValidProtocol(f.protocol)
  {
    ProvidedMethodsCount(f);
  }

  /** With nothing given, all three required entries are reported; the default protocol itself is accepted. */
  lemma DefaultsRejected()
    ensures ValidProtocol(Defaults().protocol)
    ensures FlagError(Defaults()) == Some(MissingRequiredFlags(RequiredOrder))
  {
    var d := Defaults();
    ProvidedMethodsCount(d);
    assert ProvidedMethods(d) == {};
    assert MissingFlags(d) == [AccountFlag] + [UserFlag] + [AuthMethodEntry];
    assert MissingFlags(d) == RequiredOrder;
  }
}
