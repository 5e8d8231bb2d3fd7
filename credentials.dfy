/** Parsing of the `--creds USERNAME[:PASSWORD]` option into a registry
    username/password pair (`parseCreds` and `getDockerAuth`). */
module Credentials {
  import opened Wrappers
  import Strings

  /** The two ways a credentials string is rejected. */
  datatype CredsError =
    | EmptyCredentials   // "credentials can't be empty"
    | EmptyUsername      // "username can't be empty"

  /** The image library's `types.DockerAuthConfig`, as far as this code fills it. */
  datatype DockerAuthConfig = DockerAuthConfig(username: string, password: string)

  /** The anonymous-access record `&types.DockerAuthConfig{}`. */
  const AnonymousAuth := DockerAuthConfig("", "")

  /** Splits `creds` on its first colon into (username, password). The empty
      string and a string starting with a colon are rejected; without a colon
      the whole string is the username and the password is empty; the password
      is everything after the first colon, colons included. */
  function ParseCreds(creds: string): (r: Result<(string, string), CredsError>)
    ensures r.Failure? <==> creds == "" || creds[0] == ':'
    ensures creds == "" ==> r == Failure(EmptyCredentials)
    ensures creds != "" && creds[0] == ':' ==> r == Failure(EmptyUsername)
    ensures r.Success? ==> r.value.0 != "" && ':' !in r.value.0
    ensures r.Success? && ':' !in creds ==> r.value == (creds, "")
    ensures r.Success? && ':' in creds ==> r.value.0 + ":" + r.value.1 == creds
  {
    if creds == "" then Failure(EmptyCredentials)
    else
      var up := Strings.SplitN2(creds, ':');
      if |up| == 1 then Success((up[0], ""))
      else if up[0] == "" then Failure(EmptyUsername)
      else Success((up[0], up[1]))
  }

  /** The `USERNAME:PASSWORD` form of a pair, as a user writes it on the command line. */
  function FormatCreds(username: string, password: string): string {
    username + ":" + password
  }

  /** Parsing inverts formatting for every username the parser can return
      (non-empty, colon-free) and every password, including ones with colons. */
  lemma ParseFormatCreds(username: string, password: string)
    requires username != "" && ':' !in username
    ensures ParseCreds(FormatCreds(username, password)) == Success((username, password))
  {
    Strings.SplitN2AtFirst(username, password, ':');
  }

  /** Formatting inverts parsing whenever the input held a colon. */
  lemma FormatParseCreds(creds: string)
    requires ParseCreds(creds).Success? && ':' in creds
    ensures FormatCreds(ParseCreds(creds).value.0, ParseCreds(creds).value.1) == creds
  {
  }

  /** The authentication record for `creds`: the parsed username and password,
      or the parser's error. */
  function GetDockerAuth(creds: string): (r: Result<DockerAuthConfig, CredsError>)
    ensures r.Failure? <==> creds == "" || creds[0] == ':'
    ensures r.Failure? ==> r.error == (if creds == "" then EmptyCredentials else EmptyUsername)
    ensures r.Success? ==> r.value.username != "" && ':' !in r.value.username
    ensures r.Success? && ':' !in creds ==> r.value == DockerAuthConfig(creds, "")
    ensures r.Success? && ':' in creds ==> FormatCreds(r.value.username, r.value.password) == creds
  {
    var up :- ParseCreds(creds);
    Success(DockerAuthConfig(up.0, up.1))
  }
}
