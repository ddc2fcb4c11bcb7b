# snowcat: flag validation, authenticator selection and result emission

snowcat is a small command-line tool that connects to Snowflake, runs one
query and writes the result as CSV on standard output. Nearly all of its
logic sits in `main` in `main.go`. This project models the parts of `main`
that make decisions, in Dafny:

- **Flag validation** (`Validation`). Three checks run in a fixed order.
  First, at most one of password, private-key file and authenticator may be
  given. Second, the required entries must be present: account, user, and
  one authentication method. Third, the protocol must be `http` or `https`.
  `CheckFlags` builds the missing-flags list by appends and counts the
  methods by increments, as `main` does. It is proved equal to the
  declarative `FlagError`, and the lemmas about `FlagError` state the
  precedence.
- **Key loading and configuration** (`Connection`). When a key file is
  named, its PEM content must decode to an RSA private key. The driver
  configuration copies the connection fields from the flags and then gets
  exactly one authenticator. A password gives the Snowflake kind. Otherwise
  a key file gives the JWT kind. Otherwise the authenticator name
  `externalbrowser` gives the external-browser kind. Any other name is an
  "Invalid authenticator" error. `BuildConfig` fills the configuration by
  assignment and is proved equal to `Resolve`. The lemmas about `Resolve`
  state the configuration invariant and the error order. They also state
  that the key file is read only when one is named.
- **Result emission** (`Output`). The column names are written as a header
  record. Then each row is scanned into one reused value buffer, turned into
  text cells and written, and the row count goes up by one.
  `EmitResults` keeps the loop, with the buffer as an array. Its contract
  gives the records and the count outright.

The PEM reader is a function parameter `(path, passcode) -> outcome`. The
text form of a cell value (`fmt.Sprint`) is a parameter `stringify`. The
driver's result is a `RowSet`: the column names, the rows as value
sequences, and the errors reported after iteration and on close.
A `log.Fatal` becomes an error value: `ConfigError` for configuration and
`EmitError` for emission.

Three points about how `main` behaves:
- Giving no authentication method is not an error of its own. It adds an
  entry to the missing-flags list (main.go:67-69).
- An unknown authenticator name is not rejected during flag validation. It
  is rejected during authenticator selection (main.go:136-142), after the
  protocol check and the key-loading step.
- The key-file variant carries the decoded RSA key, not the path and
  passphrase.

## Model

| member | source | states |
|---|---|---|
| Validation.CheckFlags | main.go:47-85 | The append-and-count validation returns exactly the error that the declarative precedence `FlagError` gives, or none |
| Validation.ProvidedMethodsCount | main.go:57-66 | The number of authentication methods counted equals the size of the set of non-empty credential flags |
| Validation.MissingFlagsMembership | main.go:48-69 | Each missing-flags entry appears exactly when its condition holds: empty account, empty user, all three credentials empty. The list is empty exactly when all three are present |
| Validation.MissingFlagsOrdered | main.go:48-69 | The missing-flags list has at most three entries, in the order account, user, authentication method, with no repeats |
| Validation.MultipleAuthMethodsFirst | main.go:57-76 | If any two credentials are non-empty, the result is the "exactly one authentication method" error, reporting which were given, whatever else is wrong. That error arises only in this case |
| Validation.MissingFlagsBeforeProtocol | main.go:67-85 | With at most one credential, missing flags are reported, before any protocol check, exactly when the list is non-empty |
| Validation.ProtocolCheckedLast | main.go:82-85 | With account, user and exactly one credential present, the flags pass if and only if the protocol is valid; otherwise the error names the protocol |
| Validation.FlagsAcceptedIff | main.go:47-85 | The flags pass if and only if account and user are non-empty, exactly one credential is non-empty, and the protocol is "http" or "https" |
| Validation.DefaultsRejected | main.go:24-85 | The default protocol "https" is accepted. Flags left at their defaults fail with all three required entries missing, in order |
| Connection.LoadPrivateKey | main.go:96-115 | Without a key file there is no key. Otherwise a read error, a non-RSA key or the RSA key is returned, as `KeyOutcome` says |
| Connection.BuildConfig | main.go:47-142 | The step-by-step check, key load and field assignment gives exactly `Resolve`: the configuration or the first error met |
| Connection.ResolvedCopiesFields | main.go:117-127 | A built configuration has account, user, database, schema, role, host, port, protocol and max-retry count equal to the flags |
| Connection.ResolvedConfigValid | main.go:57-142 | A built configuration has a non-empty account and user and a valid protocol. Exactly one credential flag was given, and it is the method of the chosen authenticator |
| Connection.ResolvedAuthenticator | main.go:129-142 | Snowflake kind iff password given; JWT iff key file given; external browser iff authenticator given, and then it is "externalbrowser". The password is set only for the Snowflake kind and the key only for JWT, where it is the RSA key the reader decoded |
| Connection.ResolveSucceedsIff | main.go:47-142 | Building succeeds iff the flags pass, a named key file decodes to an RSA key, and without password or key file the authenticator is "externalbrowser" |
| Connection.ResolveErrorOrder | main.go:70-142 | A flag error comes before any key read. Then come an unreadable key and a non-RSA key. "Invalid authenticator" arises exactly for passing flags with only a non-"externalbrowser" authenticator |
| Connection.ResolveReadsOnlyKeyFile | main.go:100-115 | The outcome depends on the key reader only through a read of the named key file with the passcode. It does not depend on the reader at all when no key file is named |
| Connection.PasswordNeverTouchesKey | main.go:100-132 | Valid password flags give the copied configuration with the Snowflake authenticator and the password, whatever the key reader would return |
| Output.ScannablePrefix | main.go:188-191 | The rows written before a scan failure are those before the first row whose width differs from the column count |
| Output.RenderValues | main.go:193-197 | The text row has one cell per scanned value, each the stringification of that value |
| Output.EmitResults | main.go:170-212 | The header comes first. Then one record per scanned row, each with exactly one cell per column, the stringification of the matching value. The row count equals the number of data records. The error is a scan failure at the first bad row, else the iteration error, else the close error |
| Output.RecordsAppend | main.go:199-203 | Writing a row appends exactly its rendered record to the output so far |
| Output.RecordsShape | main.go:174-204 | For rows as wide as the header, the output is the header and then one record per row, each with one cell per column, each cell the text of the matching value |
| Output.CleanEmissionWritesAll | main.go:186-212 | When every row scans and the driver reports no error, all delivered rows are written and counted and the emission ends without error |

## Left out

- Flag and environment-variable parsing (main.go:43): a `Flags` value is the parsed result. Port and max-retry count are unbounded integers, so the 64-bit range that parsing enforces is not modelled.
- Interrupt handling (`signalHandlerContext`, main.go:220-246): a goroutine, OS signals and context cancellation, none of which this model captures.
- PEM reading and decryption (main.go:101-109): the reader is a parameter that returns an error, an RSA key or another kind of key.
- Building the DSN, opening the connection, running the query and fetching the column names (main.go:144-168): this is the driver's work over the network. The query text is a fixed constant.
- CSV quoting and escaping, and the text form of a value (main.go:171, 196): records are string sequences, and `stringify` is a parameter.
- Write errors on the header and on rows (main.go:175-177, 200-202): these are failures of standard output, which the model does not represent. So `EmitResults` never reports them.
- Output.EmitResults: the records are those handed to the CSV writer. On a fatal error the process exits without running the deferred flush, so records still buffered may never reach standard output. That buffering is not modelled.
- Output.EmitResults: a scan failure is modelled as a row whose width differs from the column count. The driver's other conversion failures are not modelled.
- Log messages, including the comma-joined text of the missing-flags error, and the process exit itself: an error value carries the same information.
