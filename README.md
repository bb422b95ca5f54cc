# Jamf Pro connection tester, modelled in Dafny

`scripts/test-jamf-connection.py` checks that a Jamf Pro instance can be reached with a set of
OAuth client credentials. It loads a `.env` file into the process environment, reads the
instance host, client id and client secret, builds the base URL, asks for a token, probes
the version endpoint and then the computer-group listing, and exits with status 1 on a
fatal failure and 0 otherwise (including a failed listing and a Ctrl-C).

The model has five modules:

- `Wrappers`: the `Option` type.
- `PyStr`: the Python string operations the script relies on, on `seq<char>`:
  - `strip()` with the full `str.isspace` set;
  - `startswith` and `endswith`;
  - substring `in`;
  - `replace(p, '')`, a single left-to-right pass;
  - `rstrip('/')`;
  - `split('=', 1)`, and `split('&')` with its inverse `join`.
- `EnvFile`: `load_env_file`.
  - The environment is a `map<string, string>`. The file is `Option<seq<string>>` (its lines, or `None` when it does not exist).
  - `ApplyLine` and `ApplyLines` specify the effect of one line and of a whole file.
  - The class `Environ` holds the environment as a field.
  - Its method `LoadEnvFile` runs the line loop in place and is proved equal to `ApplyLines`.
- `JamfConfig`:
  - reading the three settings;
  - stripping the host and removing the protocol;
  - building the URL;
  - the completeness check;
  - the body of the token request;
  - a form-field splitter used as the body's partner, to show which fields a server would read.
- `HealthCheck`: the order of steps in `main` and the exit status.
  - Every network call is replaced by its outcome (raised, or returned a token that may be absent or empty).
  - The interrupt is given as the step it hits.
  - `Halt` says where and how the run stops.
  - `Run` gives the trace of steps, the requests sent and the exit status.

Edge cases the model keeps on purpose:

- Keys are not trimmed. `K = v` stores `" v"` under `"K "`.
- A value `${NAME}` is replaced by the entry for NAME, or by `""`, at the moment the line is read, so an earlier line of the same file counts. `${}` refers to the empty name and expands to `""` (and so writes nothing), unless a line `=v` stored an empty key earlier; Python rejects that line, as noted under "## Left out".
- An empty final value writes nothing, so an existing entry survives.
- A host that is only `https://` normalises to an empty host. The URL is then `https:` and the configuration is incomplete.
- A host made only of `/` leaves the configuration complete, with the URL `https:` (`SlashOnlyHostUrl`).
- The credentials go into the token body without percent-encoding. An `&` in the secret splits it into an extra field (`SecretWithAmpersand`).

## Model

| member | source | states |
|---|---|---|
| PyStr.LStrip | scripts/test-jamf-connection.py:30 | the leading half of `strip()`, dropping whitespace characters from the front one at a time; its properties are stated by `LStripSpec` |
| PyStr.RStrip | scripts/test-jamf-connection.py:30 | the trailing half of `strip()`, dropping whitespace characters from the end one at a time; its properties are stated by `RStripSpec` |
| PyStr.Strip | scripts/test-jamf-connection.py:30 | `strip()` as `lstrip()` then `rstrip()`; its properties are stated by `StripSpec` |
| PyStr.StripSpec | scripts/test-jamf-connection.py:30 | `strip()`: no whitespace at either end, empty exactly when the line is all whitespace, unchanged when it has no whitespace at its ends |
| PyStr.LStripSpec | scripts/test-jamf-connection.py:30 | the leading-whitespace half of `strip()`: a suffix of the input, whose dropped prefix is all whitespace, starting with a non-space |
| PyStr.RStripSpec | scripts/test-jamf-connection.py:30 | the trailing half of `strip()`: a prefix of the input, whose dropped suffix is all whitespace, ending with a non-space |
| PyStr.IndexOf | scripts/test-jamf-connection.py:32 | the first `=` of the line: holds `=`, and no `=` comes before it |
| PyStr.SplitOnce | scripts/test-jamf-connection.py:32 | `split('=', 1)`: the line is key, `=`, value; the key holds no `=`, and later `=` stay in the value |
| PyStr.SplitOnceAt | scripts/test-jamf-connection.py:32 | for a key without `=`, splitting `key=value` gives back exactly that key and value |
| PyStr.RemoveAll | scripts/test-jamf-connection.py:99 | `replace(p, '')`: never longer than the input, and the identity when `p` does not occur |
| PyStr.NotContainsPrefixed | scripts/test-jamf-connection.py:99 | no occurrence of `p` appears in `a + s` when none starts in `a` and `s` has none (used to show `https://` is absent from `http://NAME`) |
| PyStr.RStripChar | scripts/test-jamf-connection.py:100 | `rstrip('/')`: a prefix of the input that does not end with `/`, the dropped tail being all `/` |
| PyStr.Split | scripts/test-jamf-connection.py:46 | the receiving side of the `&`-joined body: at least one piece, no piece holds the separator |
| PyStr.SplitAt | scripts/test-jamf-connection.py:46 | a separator after a separator-free first piece splits that piece off |
| PyStr.SplitJoin | scripts/test-jamf-connection.py:46 | splitting undoes joining pieces free of the separator |
| PyStr.JoinSplit | scripts/test-jamf-connection.py:46 | joining undoes splitting |
| PyStr.JoinThree | scripts/test-jamf-connection.py:46 | three pieces joined are the first, a separator and the other two joined |
| PyStr.SplitFour | scripts/test-jamf-connection.py:46 | four separator-free pieces joined split back into exactly those four |
| EnvFile.IsAssignment | scripts/test-jamf-connection.py:31 | the guard of the loop body: a stripped line is acted on only when non-empty, not starting with `#`, and holding `=`; `ApplyLine` states that any other line changes nothing |
| EnvFile.Expand | scripts/test-jamf-connection.py:34-36 | the value stored for a raw value: a `${NAME}` value becomes the current entry for NAME or `""`, any other value stays; `ExpandReference` and `ApplyAssignment` state its effect |
| EnvFile.ReferencedName | scripts/test-jamf-connection.py:34-35 | `value[2:-1]` of a `${...}` value is the NAME with `value == "${" + NAME + "}"` |
| EnvFile.ExpandReference | scripts/test-jamf-connection.py:34-36 | `${NAME}` becomes the entry for NAME, or `""` when NAME is unset |
| EnvFile.ApplyLine | scripts/test-jamf-connection.py:30-38 | a line that is blank, a comment or has no `=` once stripped leaves the environment unchanged; an assignment touches no key but its own; no key is ever removed; every changed entry is non-empty |
| EnvFile.ApplyAssignment | scripts/test-jamf-connection.py:31-38 | a stripped line `KEY=VALUE` stores exactly the expansion of VALUE under KEY (later `=` kept), and stores nothing when that expansion is empty |
| EnvFile.ApplyLines | scripts/test-jamf-connection.py:29-38 | a whole file never removes a key, and every entry it changes holds a non-empty value |
| EnvFile.ApplyLinesAppend | scripts/test-jamf-connection.py:29-38 | lines are applied in order: a file in two parts is the second part applied after the first |
| EnvFile.ApplyLinesSnoc | scripts/test-jamf-connection.py:29-38 | one more line of the file is one more `ApplyLine` on the result so far |
| EnvFile.UnnamedKeyUnchanged | scripts/test-jamf-connection.py:29-38 | a key no assignment line names keeps its entry, or stays absent |
| EnvFile.ApplyTwoLines | scripts/test-jamf-connection.py:29-38 | a two-line file is its first line applied, then its second |
| EnvFile.SecondLineExpands | scripts/test-jamf-connection.py:34-38 | a line `B=${A}` read when A holds a non-empty `v` stores `v` under B |
| EnvFile.ReferenceToEarlierLine | scripts/test-jamf-connection.py:32-38 | `A=v` followed by `B=${A}` sets both A and B to `v`: expansion sees what earlier lines wrote |
| EnvFile.Environ.LoadEnvFile | scripts/test-jamf-connection.py:21-39 | returns false and changes nothing when the file is missing; otherwise returns true and leaves the environment equal to `ApplyLines` of the old one over the file's lines |
| JamfConfig.NormalizeHost | scripts/test-jamf-connection.py:96-99 | the two `replace` passes, applied only when the host starts with `http://` or `https://`; `ProtocolPrefixDropped` states the result for a prefixed host, `BareHostUrl` for an unprefixed one |
| JamfConfig.ReadConfig | scripts/test-jamf-connection.py:90-102 | the three settings read with `os.environ.get(name, '')`, only the host stripped, and the URL built from the stripped host; `ReadConfigUrl` states when the URL is empty |
| JamfConfig.ReadConfigUrl | scripts/test-jamf-connection.py:90-104 | the URL is empty exactly when the host variable is unset or all whitespace, and a configuration that passes the check always has a non-empty URL |
| JamfConfig.Complete | scripts/test-jamf-connection.py:104 | `all([jamf_fqdn, client_id, client_secret])`: the normalised host, the client id and the secret are all non-empty |
| JamfConfig.JamfUrl | scripts/test-jamf-connection.py:95-102 | the URL is empty exactly when the stripped host is empty, and never ends with `/` |
| JamfConfig.JamfUrlShape | scripts/test-jamf-connection.py:99-100 | the URL is a prefix of `https://` plus the normalised host, cut only in a run of `/`; it starts with `https://` and goes beyond it whenever the normalised host has a character other than `/` |
| JamfConfig.BareHostUrl | scripts/test-jamf-connection.py:95-100 | a host without a protocol that does not end with `/` gives the URL `https://` + host |
| JamfConfig.ProtocolPrefixDropped | scripts/test-jamf-connection.py:96-100 | `https://NAME` and `http://NAME`, with no protocol inside NAME, normalise to NAME; the URL is `https://NAME` for a non-empty NAME not ending in `/` |
| JamfConfig.SlashOnlyHostUrl | scripts/test-jamf-connection.py:95-102 | a non-empty host whose normalised form is empty or all `/` gives the URL `https:` |
| JamfConfig.TokenRequestBody | scripts/test-jamf-connection.py:46 | the f-string body with the credentials inserted unencoded; `TokenBodyPieces`, `TokenBodyFields` and `SecretWithAmpersand` state its field structure |
| JamfConfig.TokenBodyPieces | scripts/test-jamf-connection.py:46 | the body is the three `NAME=VALUE` fields joined by `&` |
| JamfConfig.FormFieldOf | scripts/test-jamf-connection.py:46 | a field `NAME=VALUE` with no `=` in NAME reads back as (NAME, VALUE) |
| JamfConfig.FormFields | scripts/test-jamf-connection.py:46 | one field per `&`-separated piece |
| JamfConfig.TokenBodySplit | scripts/test-jamf-connection.py:46 | without `&` in the credentials the body splits into exactly the three fields |
| JamfConfig.TokenBodyFields | scripts/test-jamf-connection.py:46 | without `&` in the credentials the body carries exactly client_id, client_secret and grant_type=client_credentials, in that order, with the credentials unchanged |
| JamfConfig.ThreeFields | scripts/test-jamf-connection.py:46 | three `NAME=VALUE` pieces read back as their three pairs |
| JamfConfig.AmpersandSecretSplit | scripts/test-jamf-connection.py:46 | a secret with one `&` makes the body split into four pieces |
| JamfConfig.SecretWithAmpersand | scripts/test-jamf-connection.py:46 | without percent-encoding, a secret `X&Y` arrives as client_secret=X plus an extra field Y |
| JamfConfig.FourFields | scripts/test-jamf-connection.py:46 | four pieces read back as their fields |
| HealthCheck.Halt | scripts/test-jamf-connection.py:82-170 | every step before the one the run stops at ran to its end without a fatal failure; the run stops on a failure exactly when a fatal step fails before an interrupt, and then at a step whose failure holds; it stops on an interrupt exactly when the interrupted step is reached; only the listing can pass or be tolerated, and it is tolerated exactly when it raises uninterrupted; getting past the configuration needs a found file and a complete configuration, past the token a non-empty token, and reaching the listing needs a successful version probe |
| HealthCheck.HaltDetermined | scripts/test-jamf-connection.py:82-170 | the contract of `Halt` fixes the stopping step and verdict: any result meeting it is `Halt`'s |
| HealthCheck.Run | scripts/test-jamf-connection.py:82-170 | exit status 1 exactly when a fatal step fails before an interrupt, else 0; trace in the order of `main`, all but the last step passed; the token POST only after the configuration check, with the body from the configured credentials; every GET carries the obtained non-empty token; the listing only after the version probe succeeded; every request against the configured URL; exactly one request per network step that ran to its end (the token POST, then the version GET, then the listing GET), none before the token step; an uninterrupted run with no fatal failure runs all five steps and sends all three requests |
| HealthCheck.AllStepsPass | scripts/test-jamf-connection.py:112-162 | when every call succeeds, all five steps pass, three requests go out and the status is 0 |
| HealthCheck.VersionProbeFails | scripts/test-jamf-connection.py:125-133 | a raising version probe ends the run there with status 1, and the listing is never fetched |
| HealthCheck.ListingProbeTolerated | scripts/test-jamf-connection.py:135-156 | a raising listing probe is recorded as tolerated and the status stays 0 |
| HealthCheck.MissingFileFails | scripts/test-jamf-connection.py:86-87 | a missing `.env` file ends the run at once with status 1 and no request |

## Left out

- Console output is not modelled: the messages, emoji, the token's first 20 characters and the "next steps" text are presentation only.
- `urljoin` is not modelled. A request records the base URL and the path it is resolved against, because `urljoin` replaces any path in the base and is not concatenation.
- HTTP and JSON are not modelled: `urlopen`, `HTTPError` and decoding. Each call is given as its outcome. A token call either raised or returned the `access_token` field, which may be absent or empty. A GET either succeeded or raised.
- The `version` and `totalCount` values read from the responses only feed the printed report and are not modelled.
- `os.path.exists` and `open`: the file is an optional list of lines. A file that exists but cannot be read, and line terminators other than those `strip()` removes, are not modelled.
- `os.environ` is modelled as a plain map. The process-wide `putenv` side effect is not modelled. Neither is its rejection of an empty key from a line `=v`: in Python that assignment raises (`OSError` from `setenv` on POSIX), which nothing in `main` catches, so the run ends with status 1 during the file load. Here the entry is stored and the run goes on, possibly to status 0.
- `KeyboardInterrupt` is modelled only as the step during which it arrives, with exit status 0. An interrupt during a network step is read as arriving before that step's request is sent, so the request is not recorded. An interrupt during the final messages counts as one during the listing step, so the listing GET it follows is not recorded either.
- HealthCheck.RunCheck has no contract of its own. It only feeds the loaded file's configuration into `Run`, and the properties are stated on `Run` for any configuration, so the proofs never unfold the string operations.
- JamfConfig.FormFields does not percent-decode and does not treat `+` as a space. It only shows where `&` splits the body.
- PyStr.RemoveAll does not fully characterise the output. Its contract gives only the length bound and the no-occurrence identity; the exact results needed are proved in `ProtocolPrefixDropped`.
