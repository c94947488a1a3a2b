/**
 * `connectToRemoteServer` (src/lib/utils.ts): builds the request headers
 * with `parseHeaders(headers, 'password', 'secret')`, starts a transport, and
 * on an unauthorized failure waits for the code, finishes the authorization
 * and starts a second, new transport.  The SDK's transport and auth provider
 * are not modelled: their outcomes are inputs.
 */
module Connection {

  import opened Base
  import opened JsStrings
  import Crypto
  import HeaderParser

  /** What a failed `start()` or `finishAuth()` throws. */
  datatype Thrown = UnauthorizedError(message: string) | PlainError(message: string) | NotAnError

  /** `error instanceof UnauthorizedError || (error instanceof Error && error.message.includes('Unauthorized'))`. */
  predicate IsUnauthorized(e: Thrown)
  {
    e.UnauthorizedError? || (e.PlainError? && Includes(e.message, "Unauthorized"))
  }

  /** A plain Error counts as unauthorized wherever its message mentions the word. */
  lemma UnauthorizedAnywhere(a: string, b: string)
    ensures IsUnauthorized(PlainError(a + "Unauthorized" + b))
  {
    var m := a + "Unauthorized" + b;
    assert m[|a|..|a| + |"Unauthorized"|] == "Unauthorized";
    assert OccursAt(m, "Unauthorized", |a|);
  }

  /** The encryption key list and secret key the caller fixes. */
  const KeysForEncryption: string := "password"
  const SecretKey: string := "secret"

  /** The `headers` object of the request: `parseHeaders(headers, 'password', 'secret')`. */
  function RequestHeaders(prims: Crypto.Primitives, iv: Crypto.Iv, headers: string): (sent: map<string, string>)
  {
    HeaderParser.ParseHeadersSpec(prims, iv, headers, KeysForEncryption, SecretKey)
  }

  /** Without a `keysforencryption` override, the caller's list is just `password`, and the secret is not in it. */
  lemma NoOverrideListsPassword()
    ensures HeaderParser.EffectiveKeys([], KeysForEncryption) == [KeysForEncryption]
    ensures SecretKey != KeysForEncryption
  {
    assert ',' !in KeysForEncryption;
    SplitNoSeparator(KeysForEncryption, ',');
  }

  /**
   * Without a `keysforencryption` override, the request never carries the
   * secret, its `password` is encrypted under the secret when one was given,
   * and every other header is passed as parsed.
   */
  lemma RequestHeadersProtectPassword(prims: Crypto.Primitives, iv: Crypto.Iv, headers: string)
    requires HeaderParser.Collect(Split(headers, ',')).headerKeys == []
    ensures var parsed := HeaderParser.Collect(Split(headers, ',')).credentials;
            var sent := RequestHeaders(prims, iv, headers);
            && sent.Keys == parsed.Keys - {SecretKey}
            && forall k :: k in sent ==>
                 sent[k] == if k == "password" && SecretKey in parsed
                            then Crypto.Encrypt(prims, iv, parsed[k], parsed[SecretKey])
                            else parsed[k]
  {
    var parsed := HeaderParser.Collect(Split(headers, ',')).credentials;
    var sent := RequestHeaders(prims, iv, headers);
    NoOverrideListsPassword();
    HeaderParser.ParseHeadersKeys(prims, iv, headers, KeysForEncryption, SecretKey);
    HeaderParser.ParseHeadersEncryptsListed(prims, iv, headers, KeysForEncryption, SecretKey);
    forall k | k in sent
      ensures sent[k] == if k == "password" && SecretKey in parsed
                         then Crypto.Encrypt(prims, iv, parsed[k], parsed[SecretKey])
                         else parsed[k]
    {
      assert k in ["password"] <==> k == "password";
    }
  }

  /** Which transport instance: the first, or the new one created after authorization. */
  datatype Instance = FirstTransport | TransportAfterAuth

  /** What the attempt to connect yields; the code is what `waitForAuthCode` resolved with. */
  datatype Attempt = Attempt(firstStart: Option<Thrown>, code: string, finishAuth: Option<Thrown>, secondStart: Option<Thrown>)

  /**
   * The connection flow: the first transport if it starts; on an unauthorized
   * failure, `finishAuth(code)` and then a NEW transport; any other failure,
   * and any failure after authorization, is rethrown unchanged.
   */
  function Connect(a: Attempt): (r: Result<Instance, Thrown>)
  {
    match a.firstStart
    case None => Ok(FirstTransport)
    case Some(e) =>
      if !IsUnauthorized(e) then Err(e)
      else if a.finishAuth.Some? then Err(a.finishAuth.value)
      else if a.secondStart.Some? then Err(a.secondStart.value)
      else Ok(TransportAfterAuth)
  }

  /**
   * The flow retries only after an unauthorized failure, only once, and
   * returns a transport other than the one that failed.
   */
  lemma ConnectRetriesOnceOnUnauthorized(a: Attempt)
    ensures a.firstStart.None? <==> Connect(a) == Ok(FirstTransport)
    ensures a.firstStart.Some? && !IsUnauthorized(a.firstStart.value) ==> Connect(a) == Err(a.firstStart.value)
    ensures Connect(a) == Ok(TransportAfterAuth) <==>
              a.firstStart.Some? && IsUnauthorized(a.firstStart.value) && a.finishAuth.None? && a.secondStart.None?
    ensures a.firstStart.Some? && IsUnauthorized(a.firstStart.value) && a.finishAuth.None? && a.secondStart.Some? ==>
              Connect(a) == Err(a.secondStart.value)
    ensures Connect(a).Err? ==>
              || (a.firstStart.Some? && Connect(a).error == a.firstStart.value)
              || (a.finishAuth.Some? && Connect(a).error == a.finishAuth.value)
              || (a.secondStart.Some? && Connect(a).error == a.secondStart.value)
  {
  }
}
