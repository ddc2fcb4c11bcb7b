/**
 * The parsed command-line flags of the tool (main.go:24-38). Parsing itself
 * (flags and environment variables) is not part of this model: a `Flags`
 * value is what the parser hands to the rest of `main`.
 */
module CommandLine {
  /** Names reported in the "Missing required flags" error (main.go:50, 53, 68). */
  const AccountFlag := "snowflake.account"
  const UserFlag := "snowflake.user"
  const AuthMethodEntry :=
    "authentication method (one of: snowflake.password, snowflake.private.key.file, or snowflake.authenticator)"

  /** Default values of the flags that have one (main.go:27, 28, 37). */
  const DefaultPort := 443
  const DefaultProtocol := "https"
  const DefaultMaxRetryCount := 7

  /** The one authenticator name the tool accepts (main.go:136). */
  const ExternalBrowser := "externalbrowser"

  datatype Flags = Flags(
    account: string,
    host: string,
    port: int,
    protocol: string,
    database: string,
    schema: string,
    user: string,
    password: string,
    role: string,
    privateKeyFile: string,
    privateKeyPasscode: string,
    authenticator: string,
    maxRetryCount: int)

  /** The flags as they stand when nothing is given on the command line or in the environment. */
  function Defaults(): Flags {
    Flags(
      account := "", host := "", port := DefaultPort, protocol := DefaultProtocol,
      database := "", schema := "", user := "", password := "", role := "",
      privateKeyFile := "", privateKeyPasscode := "", authenticator := "",
      maxRetryCount := DefaultMaxRetryCount)
  }
}
