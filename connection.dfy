/**
 * Private-key loading and the driver configuration built from validated
 * flags (main.go:96-142): copied connection fields plus exactly one
 * authenticator, chosen by the precedence password, key file, external browser.
 */
module Connection {
  import opened Wrappers
  import opened CommandLine
  import opened Validation

  /** The driver's authenticator kinds that this tool selects. */
  datatype AuthType = AuthTypeSnowflake | AuthTypeJwt | AuthTypeExternalBrowser

  /** A decoded RSA private key; its contents are opaque to the tool. */
  datatype RsaPrivateKey = RsaPrivateKey(der: seq<bv8>)

  /** What a PEM file can decode to: an RSA key, or a key of some other algorithm. */
  datatype DecodedKey = Rsa(key: RsaPrivateKey) | OtherKey(algorithm: string)

  /** The outcome of reading and, when a passcode applies, decrypting a PEM file. */
  datatype PemOutcome = PemError(reason: string) | PemKey(decoded: DecodedKey)

  /**
   * The PEM reader, as a function of the file path and the passcode. File
   * access and decryption happen behind it.
   */
  type PemReader = (string, string) -> PemOutcome

  /** The connection configuration handed to the driver. */
  datatype Config = Config(
    account: string,
    user: string,
    database: string,
    schema: string,
    role: string,
    host: string,
    port: int,
    protocol: string,
    maxRetryCount: int,
    authenticator: AuthType,
    password: string,
    privateKey: Option<RsaPrivateKey>)

  /** The key the flags call for: none without a key file, otherwise the RSA key the file holds. */
  function KeyOutcome(f: Flags, reader: PemReader): Result<Option<RsaPrivateKey>, ConfigError> {
    if f.privateKeyFile == "" then
      Success(None)
    else
      match reader(f.privateKeyFile, f.privateKeyPasscode)
      case PemError(reason) => Failure(PrivateKeyUnreadable(reason))
      case PemKey(OtherKey(_)) => Failure(PrivateKeyNotRsa)
      case PemKey(Rsa(key)) => Success(Some(key))
  }

  /**
   * The configuration before an authenticator is added: every connection
   * field copied from its flag. The authenticator kind is a placeholder that
   * every successful branch of `Resolve` sets.
   */
  function BaseConfig(f: Flags): Config {
    Config(
      account := f.account, user := f.user, database := f.database, schema := f.schema,
      role := f.role, host := f.host, port := f.port, protocol := f.protocol,
      maxRetryCount := f.maxRetryCount, authenticator := AuthTypeSnowflake,
      password := "", privateKey := None)
  }

  /** What `main` ends up with before connecting: a configuration, or the first error it meets. */
  function Resolve(f: Flags, reader: PemReader): Result<Config, ConfigError> {
    match FlagError(f)
    case Some(e) => Failure(e)
    case None =>
      match KeyOutcome(f, reader)
      case Failure(e) => Failure(e)
      case Success(key) =>
        if f.password != "" then
          Success(BaseConfig(f).(authenticator := AuthTypeSnowflake, password := f.password))
        else if f.privateKeyFile != "" then
          Success(BaseConfig(f).(authenticator := AuthTypeJwt, privateKey := key))
        else if f.authenticator == ExternalBrowser then
          Success(BaseConfig(f).(authenticator := AuthTypeExternalBrowser))
        else
          Failure(InvalidAuthenticator(f.authenticator))
  }

  /** Reads the key file, when one is named, and keeps the key only if it is an RSA key. */
  method LoadPrivateKey(f: Flags, reader: PemReader) returns (r: Result<Option<RsaPrivateKey>, ConfigError>)
    ensures r == KeyOutcome(f, reader)
  {
    var rsaKey: Option<RsaPrivateKey> := None;
    if f.privateKeyFile != "" {
      var key := reader(f.privateKeyFile, f.privateKeyPasscode);
      if key.PemError? {
        return Failure(PrivateKeyUnreadable(key.reason));
      }
      if !key.decoded.Rsa? {
        return Failure(PrivateKeyNotRsa);
      }
      rsaKey := Some(key.decoded.key);
    }
    return Success(rsaKey);
  }

  /** The configuration step of `main`: check the flags, load the key, fill in the fields, pick the authenticator. */
  method BuildConfig(f: Flags, reader: PemReader) returns (r: Result<Config, ConfigError>)
    ensures r == Resolve(f, reader)
  {
    var flagErr := CheckFlags(f);
    if flagErr.Some? {
      return Failure(flagErr.value);
    }

    var loaded := LoadPrivateKey(f, reader);
    if loaded.Failure? {
      return Failure(loaded.error);
    }
    var rsaKey := loaded.value;

    var cfg := Config(
      account := f.account, user := f.user, database := f.database, schema := f.schema,
      role := f.role, host := f.host, port := f.port, protocol := f.protocol,
      maxRetryCount := f.maxRetryCount, authenticator := AuthTypeSnowflake,
      password := "", privateKey := None);

    if f.password != "" {
      cfg := cfg.(authenticator := AuthTypeSnowflake);
      cfg := cfg.(password := f.password);
    } else if f.privateKeyFile != "" {
      cfg := cfg.(authenticator := AuthTypeJwt);
      cfg := cfg.(privateKey := rsaKey);
    } else if f.authenticator == ExternalBrowser {
      cfg := cfg.(authenticator := AuthTypeExternalBrowser);
    } else {
      return Failure(InvalidAuthenticator(f.authenticator));
    }
    return Success(cfg);
  }

  /** The authentication method each authenticator kind stands for. */
  function MethodOf(a: AuthType): AuthMethod {
    match a
    case AuthTypeSnowflake => PasswordMethod
    case AuthTypeJwt => PrivateKeyMethod
    case AuthTypeExternalBrowser => AuthenticatorMethod
  }

  /** Every connection field of a built configuration is its flag's value, unchanged. */
  lemma ResolvedCopiesFields(f: Flags, reader: PemReader)
    requires Resolve(f, reader).Success?
    ensures var cfg := Resolve(f, reader).value;
      cfg.account == f.account && cfg.user == f.user && cfg.database == f.database
      && cfg.schema == f.schema && cfg.role == f.role && cfg.host == f.host
      && cfg.port == f.port && cfg.protocol == f.protocol && cfg.maxRetryCount == f.maxRetryCount
  {
  }

  /**
   * A built configuration satisfies the configuration invariant: account and
   * user set, a recognised protocol, and exactly one authentication method,
   * the one whose flag was the single non-empty credential.
   */
  lemma ResolvedConfigValid(f: Flags, reader: PemReader)
    requires Resolve(f, reader).Success?
    ensures var cfg := Resolve(f, reader).value;
      cfg.account != "" && cfg.user != "" && ValidProtocol(cfg.protocol)
      && ExactlyOneCredential(f)
      && ProvidedMethods(f) == {MethodOf(cfg.authenticator)}
  {
    FlagsAcceptedIff(f);
    var cfg := Resolve(f, reader).value;
    var m := MethodOf(cfg.authenticator);
    assert m in ProvidedMethods(f);
    ProvidedMethodsCount(f);
    assert |ProvidedMethods(f)| == 1;
    SingletonOfMember(ProvidedMethods(f), m);
  }

  lemma SingletonOfMember<T>(s: set<T>, x: T)
    requires x in s && |s| == 1
    ensures s == {x}
  {
    if y :| y in s && y != x {
      assert {x, y} <= s;
      assert |{x, y}| == 2;
      SubsetCardinality({x, y}, s);
    }
  }

  lemma SubsetCardinality<T>(a: set<T>, b: set<T>)
    requires a <= b
    ensures |a| <= |b|
  {
    assert b == a + (b - a);
  }

  /**
   * The chosen authenticator carries only its own credential: the password
   * only for the password kind, the RSA key only for the key kind, and
   * external-browser only for the name "externalbrowser".
   */
  lemma ResolvedAuthenticator(f: Flags, reader: PemReader)
    requires Resolve(f, reader).Success?
    ensures var cfg := Resolve(f, reader).value;
      (cfg.authenticator == AuthTypeSnowflake <==> f.password != "")
      && (cfg.authenticator == AuthTypeJwt <==> f.privateKeyFile != "")
      && (cfg.authenticator == AuthTypeExternalBrowser <==> f.authenticator != "")
      && cfg.password == (if cfg.authenticator == AuthTypeSnowflake then f.password else "")
      && (cfg.privateKey.Some? <==> cfg.authenticator == AuthTypeJwt)
      && (cfg.privateKey.Some? ==>
            reader(f.privateKeyFile, f.privateKeyPasscode) == PemKey(Rsa(cfg.privateKey.value)))
      && (cfg.authenticator == AuthTypeExternalBrowser ==> f.authenticator == ExternalBrowser)
  {
    FlagsAcceptedIff(f);
  }

  /**
   * Building succeeds exactly when the flags pass, a named key file decodes
   * to an RSA key, and, with neither password nor key file, the
   * authenticator is "externalbrowser".
   */
  lemma ResolveSucceedsIff(f: Flags, reader: PemReader)
    ensures Resolve(f, reader).Success? <==>
      FlagError(f) == None
      && (f.privateKeyFile != "" ==> reader(f.privateKeyFile, f.privateKeyPasscode).PemKey?
                                     && reader(f.privateKeyFile, f.privateKeyPasscode).decoded.Rsa?)
      && (f.password == "" && f.privateKeyFile == "" ==> f.authenticator == ExternalBrowser)
  {
  }

  /**
   * Errors come in a fixed order: a flag error before anything is read, then
   * key errors, and "Invalid authenticator" only for flags that passed and
   * chose the authenticator flag with a name other than "externalbrowser".
   */
  lemma ResolveErrorOrder(f: Flags, reader: PemReader)
    ensures FlagError(f).Some? ==> Resolve(f, reader) == Failure(FlagError(f).value)
    ensures FlagError(f) == None && f.privateKeyFile != "" ==>
      match reader(f.privateKeyFile, f.privateKeyPasscode)
      case PemError(reason) => Resolve(f, reader) == Failure(PrivateKeyUnreadable(reason))
      case PemKey(OtherKey(_)) => Resolve(f, reader) == Failure(PrivateKeyNotRsa)
      case PemKey(Rsa(_)) => Resolve(f, reader).Success?
    ensures Resolve(f, reader) == Failure(InvalidAuthenticator(f.authenticator)) <==>
      FlagError(f) == None && f.password == "" && f.privateKeyFile == "" && f.authenticator != ExternalBrowser
  {
    FlagsAcceptedIff(f);
  }

  /**
   * The key file is consulted only through one read of the named path with
   * the given passcode, and not at all when no key file is named: readers
   * that agree on that one call give the same outcome.
   */
  lemma ResolveReadsOnlyKeyFile(f: Flags, reader1: PemReader, reader2: PemReader)
    requires f.privateKeyFile == "" || reader1(f.privateKeyFile, f.privateKeyPasscode) == reader2(f.privateKeyFile, f.privateKeyPasscode)
    ensures Resolve(f, reader1) == Resolve(f, reader2)
  {
  }

  /** Valid password flags give the password authenticator, whatever the key reader would have done. */
  lemma PasswordNeverTouchesKey(f: Flags, reader: PemReader)
    requires FlagError(f) == None && f.password != ""
    ensures Resolve(f, reader) == Success(BaseConfig(f).(authenticator := AuthTypeSnowflake, password := f.password))
  {
    FlagsAcceptedIff(f);
  }
}
