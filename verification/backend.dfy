/** Construction of the adapter's configuration from the caller's URL and credentials. */
module Backend {
  import opened Wrappers
  import opened Strings

  /** The settings the adapter keeps; `apiKey` mirrors the secret key for the generic backend interface. */
  datatype Config = Config(url: string, publicKey: string, secretKey: string, apiKey: string, timeoutSeconds: real)

  const MissingCredentials: string := "Langfuse backend requires both public_key and secret_key"

  /**
    The adapter's configuration, or the error raised when either key is
    missing or empty. The stored URL is the given one without its trailing
    slashes.
   */
  function Configure(url: string, publicKey: Option<string>, secretKey: Option<string>, timeoutSeconds: real): (r: Result<Config, string>)
    ensures r.Success? <==> Truthy(publicKey) && Truthy(secretKey)
    ensures r.Failure? ==> r.error == MissingCredentials
    ensures r.Success? ==> r.value.publicKey == publicKey.value && r.value.secretKey == secretKey.value
    ensures r.Success? ==> r.value.apiKey == r.value.secretKey && r.value.timeoutSeconds == timeoutSeconds
    ensures r.Success? ==> r.value.url <= url
    ensures r.Success? ==> |r.value.url| == 0 || r.value.url[|r.value.url| - 1] != '/'
    ensures r.Success? ==> forall i :: |r.value.url| <= i < |url| ==> url[i] == '/'
  {
    if !Truthy(publicKey) || !Truthy(secretKey) then Failure(MissingCredentials)
    else Success(Config(TrimRight(url, '/'), publicKey.value, secretKey.value, secretKey.value, timeoutSeconds))
  }

  /** Configuring with an already-trimmed URL keeps it unchanged. */
  lemma ConfigureTrimIdempotent(url: string, publicKey: Option<string>, secretKey: Option<string>, timeoutSeconds: real)
    requires Configure(url, publicKey, secretKey, timeoutSeconds).Success?
    ensures var c := Configure(url, publicKey, secretKey, timeoutSeconds).value;
      Configure(c.url, publicKey, secretKey, timeoutSeconds).value.url == c.url
  {
  }
}
