/**
 * The configuration step of `main` and the request body of `get_oauth_token`: reading the
 * three settings from the environment, turning the instance host into the base URL, and
 * deciding whether the run may go on.
 */
module JamfConfig {
  import opened PyStr
  import opened EnvFile

  const HostVar := "JAMF_INSTANCE_FQDN"
  const ClientIdVar := "JAMF_CLIENT_ID"
  const ClientSecretVar := "JAMF_CLIENT_SECRET"

  const Https := "https://"
  const Http := "http://"

  /** The settings `main` works with: the host after protocol removal, the client id and
      secret as read, and the base URL every request is resolved against. */
  datatype Config = Config(host: string, clientId: string, clientSecret: string, url: string)

  predicate HasProtocol(host: string) {
    StartsWith(host, Http) || StartsWith(host, Https)
  }

  /** The host after the protocol clean-up: only when it starts with a protocol are all
      occurrences of `https://` removed, then all occurrences of `http://`. */
  function NormalizeHost(host: string): string {
    if HasProtocol(host) then RemoveAll(RemoveAll(host, Https), Http) else host
  }

  /** The base URL built from the stripped host: empty for an empty host, otherwise
      `https://` and the normalised host with every trailing `/` dropped; it never ends
      with `/`. */
  function JamfUrl(host: string): (url: string)
    ensures host == "" <==> url == ""
    ensures url == [] || url[|url| - 1] != '/'
  {
    if host == "" then ""
    else
      var url := RStripChar(Https + NormalizeHost(host), '/');
      assert url != "" by {
        assert (Https + NormalizeHost(host))[4] != '/';
      }
      url
  }

  /** For a non-empty host, the URL is what `https://` plus the normalised host leaves after
      removing a run of `/` from its end, and it keeps all of `https://` and more unless the
      normalised host is nothing but `/`. */
  lemma {:induction false} JamfUrlShape(host: string)
    requires host != ""
    ensures var full := Https + NormalizeHost(host);
      && JamfUrl(host) <= full
      && (forall k :: |JamfUrl(host)| <= k < |full| ==> full[k] == '/')
      && ((exists k :: 0 <= k < |NormalizeHost(host)| && NormalizeHost(host)[k] != '/') ==>
            StartsWith(JamfUrl(host), Https) && |JamfUrl(host)| > |Https|)
  {
    var full := Https + NormalizeHost(host);
    var url := JamfUrl(host);
    assert url == RStripChar(full, '/');
    if exists k :: 0 <= k < |NormalizeHost(host)| && NormalizeHost(host)[k] != '/' {
      var k :| 0 <= k < |NormalizeHost(host)| && NormalizeHost(host)[k] != '/';
      assert full[|Https| + k] != '/';
      assert url[..|Https|] == full[..|Https|];
    }
  }

  /** A non-empty host that normalises to nothing but `/` (or to nothing at all, as
      `https://` alone does) yields the URL `https:`, not an empty one. */
  lemma {:induction false} SlashOnlyHostUrl(host: string)
    requires host != ""
    requires forall k :: 0 <= k < |NormalizeHost(host)| ==> NormalizeHost(host)[k] == '/'
    ensures JamfUrl(host) == "https:"
  {
    var full := Https + NormalizeHost(host);
    var url := JamfUrl(host);
    assert url == RStripChar(full, '/');
    assert full[5] == Https[5] == ':';
    assert |url| == 6;
    assert url == full[..|url|];
    assert full[..6] == Https[..6];
  }

  /** The configuration `main` reads: the host is stripped of surrounding whitespace before
      anything else, the client id and secret are taken as they are. */
  function ReadConfig(env: Env): Config {
    var host := Strip(Lookup(env, HostVar));
    Config(NormalizeHost(host), Lookup(env, ClientIdVar), Lookup(env, ClientSecretVar), JamfUrl(host))
  }

  /** The run goes on only when the normalised host, the client id and the secret are all
      non-empty. */
  predicate Complete(c: Config) {
    c.host != "" && c.clientId != "" && c.clientSecret != ""
  }

  /** The URL `main` prints and uses is empty exactly when the host variable is unset or all
      whitespace, and a configuration that passes the check always has a URL. */
  lemma {:induction false} ReadConfigUrl(env: Env)
    ensures ReadConfig(env).url == "" <==> AllSpace(Lookup(env, HostVar))
    ensures Complete(ReadConfig(env)) ==> ReadConfig(env).url != ""
  {
    StripSpec(Lookup(env, HostVar));
  }

  /** A host given without a protocol is used as it is. */
  lemma {:induction false} BareHostUrl(host: string)
    requires host != "" && !HasProtocol(host)
    requires host[|host| - 1] != '/'
    ensures JamfUrl(host) == Https + host
  {
    var full := Https + host;
    assert full[|full| - 1] == host[|host| - 1];
  }

  /** A host given as `https://NAME` or `http://NAME`, where NAME itself holds neither
      protocol, is reduced to NAME, and the URL is `https://NAME` when NAME does not end
      with `/`. */
  lemma {:induction false} ProtocolPrefixDropped(p: string, name: string)
    requires p == Https || p == Http
    requires !Contains(name, Https) && !Contains(name, Http)
    ensures NormalizeHost(p + name) == name
    ensures name != [] && name[|name| - 1] != '/' ==> JamfUrl(p + name) == Https + name
  {
    var host := p + name;
    assert StartsWith(host, p) by { assert host[..|p|] == p; }
    if p == Https {
      assert host[|p|..] == name;
      assert RemoveAll(host, Https) == name;
    } else {
      assert !Contains(host, Https) by {
        forall k | 0 <= k < |p| ensures !StartsWith(host[k..], Https) {
          assert host[..|Http|] == Http;
          if k == 0 {
            assert |host| >= |Https| ==> host[k..][..|Https|][4] == ':';
          } else {
            assert |host| - k >= |Https| ==> host[k..][..|Https|][0] != 'h';
          }
        }
        NotContainsPrefixed(p, name, Https);
      }
      assert RemoveAll(host, Https) == host;
      assert host[..|Http|] == Http && host[|Http|..] == name;
    }
    assert NormalizeHost(host) == name;
    if name != [] && name[|name| - 1] != '/' {
      var full := Https + name;
      assert full[|full| - 1] != '/';
    }
  }

  /** `client_id=ID&client_secret=SECRET&grant_type=client_credentials`, with the id and the
      secret inserted as they are. */
  function TokenRequestBody(clientId: string, clientSecret: string): string {
    "client_id=" + clientId + "&client_secret=" + clientSecret + "&grant_type=client_credentials"
  }

  const ClientIdName := "client_id"
  const ClientSecretName := "client_secret"
  const GrantTypeName := "grant_type"
  const GrantType := "client_credentials"

  /** The body as three `NAME=VALUE` fields joined by `&`. */
  lemma {:induction false} TokenBodyPieces(clientId: string, clientSecret: string)
    ensures TokenRequestBody(clientId, clientSecret)
         == (ClientIdName + ['='] + clientId) + ['&'] + ((ClientSecretName + ['='] + clientSecret) + ['&'] + (GrantTypeName + ['='] + GrantType))
  {
    assert "client_id=" == ClientIdName + ['='];
    assert "&client_secret=" == ['&'] + ClientSecretName + ['='];
    assert "&grant_type=client_credentials" == ['&'] + (GrantTypeName + ['='] + GrantType);
  }

  /** One `NAME=VALUE` field of a form body: split at its first `=`; a field without `=`
      is a name with an empty value. */
  function FormField(field: string): (string, string) {
    if '=' in field then SplitOnce(field, '=') else (field, "")
  }

  /** The fields a form-encoded body splits into at `&` (without percent-decoding). */
  function FormFields(body: string): (r: seq<(string, string)>)
    ensures |r| == |Split(body, '&')|
  {
    var parts := Split(body, '&');
    seq(|parts|, k requires 0 <= k < |parts| => FormField(parts[k]))
  }

  /** A field `NAME=VALUE` whose NAME holds no `=` reads back as that name and value. */
  lemma {:induction false} FormFieldOf(name: string, value: string)
    requires '=' !in name
    ensures FormField(name + ['='] + value) == (name, value)
  {
    SplitOnceAt(name, value, '=');
  }

  /** The pieces of the body between its `&`s, for credentials that hold no `&`. */
  lemma {:induction false} TokenBodySplit(clientId: string, clientSecret: string)
    requires '&' !in clientId && '&' !in clientSecret
    ensures Split(TokenRequestBody(clientId, clientSecret), '&')
         == [ClientIdName + ['='] + clientId, ClientSecretName + ['='] + clientSecret, GrantTypeName + ['='] + GrantType]
  {
    TokenBodyPieces(clientId, clientSecret);
    JoinThree(ClientIdName + ['='] + clientId, ClientSecretName + ['='] + clientSecret, GrantTypeName + ['='] + GrantType, '&');
    SplitJoin([ClientIdName + ['='] + clientId, ClientSecretName + ['='] + clientSecret, GrantTypeName + ['='] + GrantType], '&');
  }

  /** The token request body carries exactly the three fields client_id, client_secret and
      grant_type, in that order, as long as neither credential holds an `&`. */
  lemma {:induction false} TokenBodyFields(clientId: string, clientSecret: string)
    requires '&' !in clientId && '&' !in clientSecret
    ensures FormFields(TokenRequestBody(clientId, clientSecret))
         == [(ClientIdName, clientId), (ClientSecretName, clientSecret), (GrantTypeName, GrantType)]
  {
    TokenBodySplit(clientId, clientSecret);
    ThreeFields(TokenRequestBody(clientId, clientSecret), clientId, clientSecret);
  }

  lemma {:induction false} ThreeFields(body: string, clientId: string, clientSecret: string)
    requires Split(body, '&')
          == [ClientIdName + ['='] + clientId, ClientSecretName + ['='] + clientSecret, GrantTypeName + ['='] + GrantType]
    ensures FormFields(body) == [(ClientIdName, clientId), (ClientSecretName, clientSecret), (GrantTypeName, GrantType)]
  {
    FormFieldOf(ClientIdName, clientId);
    FormFieldOf(ClientSecretName, clientSecret);
    FormFieldOf(GrantTypeName, GrantType);
  }

  /** The pieces of the body when the secret holds one `&`. */
  lemma {:induction false} AmpersandSecretSplit(clientId: string, before: string, after: string)
    requires '&' !in clientId && '&' !in before && '&' !in after
    ensures Split(TokenRequestBody(clientId, before + ['&'] + after), '&')
         == [ClientIdName + ['='] + clientId, ClientSecretName + ['='] + before, after, GrantTypeName + ['='] + GrantType]
  {
    var f1, f2, f4 := ClientIdName + ['='] + clientId, ClientSecretName + ['='] + before, GrantTypeName + ['='] + GrantType;
    TokenBodyPieces(clientId, before + ['&'] + after);
    assert ClientSecretName + ['='] + (before + ['&'] + after) == f2 + ['&'] + after;
    SplitFour(f1, f2, after, f4, '&');
  }

  /** The credentials are not percent-encoded: an `&` in the secret cuts it short, and what
      follows the `&` arrives as a field of its own. */
  lemma {:induction false} SecretWithAmpersand(clientId: string, before: string, after: string)
    requires '&' !in clientId && '&' !in before && '&' !in after
    ensures FormFields(TokenRequestBody(clientId, before + ['&'] + after))
         == [(ClientIdName, clientId), (ClientSecretName, before), FormField(after), (GrantTypeName, GrantType)]
  {
    AmpersandSecretSplit(clientId, before, after);
    FourFields(TokenRequestBody(clientId, before + ['&'] + after), clientId, before, after);
  }

  lemma {:induction false} FourFields(body: string, clientId: string, before: string, after: string)
    requires Split(body, '&')
          == [ClientIdName + ['='] + clientId, ClientSecretName + ['='] + before, after, GrantTypeName + ['='] + GrantType]
    ensures FormFields(body) == [(ClientIdName, clientId), (ClientSecretName, before), FormField(after), (GrantTypeName, GrantType)]
  {
    FormFieldOf(ClientIdName, clientId);
    FormFieldOf(ClientSecretName, before);
    FormFieldOf(GrantTypeName, GrantType);
  }
}
