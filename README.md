# mcp-remote utilities, modelled in Dafny

This project models the logic in `src/lib/utils.ts` of mcp-remote, a proxy that
connects a local MCP client to a remote MCP server that needs OAuth. It covers
five pieces:

- **Header parsing** (`parseHeaders`). It turns the `--header "k:v,k:v"`
  string into a credentials object. A `keysforencryption` entry can override
  which keys get encrypted. Those values are encrypted with the value stored
  under the secret key as passphrase. The secret entry is then deleted. The
  model is imperative, like the source. `CollectEntries`, `ScanEntry` and
  `EncryptListed` are the source's loops. Each is proved equal to a
  specification function (`Collect`, `ParseEntry`, `EncryptAll`). `ParseHeaders`
  chains them and is proved equal to `ParseHeadersSpec`. The lemmas state what
  those functions guarantee. `Find`, the `find` search, is specified directly
  by its contract.
- **Encryption framing** (`encrypt`/`decrypt`). The output is the 32-character
  hex IV followed by the cipher's hex output. `decrypt` cuts its input at
  character 32. SHA-512 and AES-256-CBC are function values in a `Primitives`
  record. The only thing assumed about them is the hypothesis
  `CipherRoundTrips`: deciphering undoes ciphering. Hex encoding and decoding
  of the IV are written out, following Node's `Buffer` rules.
- **The proxy** (`mcpProxy`). A class holds the two closed flags. Each
  transport event is a method. Ghost logs record the `send`/`close` calls made
  on each transport and the errors logged.
- **The OAuth callback server** (`setupOAuthCallbackServerWithLongPoll`). A
  class holds `authCode`, the completion promise's value, the held
  `/wait-for-auth` requests and the `waitForAuthCode` waiters. These events are
  methods: redirect, poll request, timer firing, completion reaching a held
  request, and `waitForAuthCode`.
- **Argument handling** (`parseCommandLineArgs`). It works on the caller's
  argument list in place (`ArgList` and `splice`) and applies the URL
  acceptance rule. `new URL`, `parseInt` and `findAvailablePort` are
  function-valued inputs.
- **Connecting** (`connectToRemoteServer`). The model covers the unauthorized
  classification, the headers sent (`parseHeaders(headers, 'password',
  'secret')`) and the retry-once flow, with the SDK's outcomes as inputs.

The model follows the code, including where it behaves in ways a reader
might not expect:

- An entry's value is its **last** `:`-segment, so `a:b:c` stores `c`.
- An entry without a colon is **kept**, with the empty value.
- The `keysforencryption` entry is **not** removed from the result.
- `authCode` is **overwritten** by every valid redirect. Only the completion
  promise keeps the first code.

`EncryptAllSecretListed` shows a consequence of the `for..in` loop reading the
secret afresh on each step. If the secret's own key is in the encryption list,
the secret is encrypted in place when the loop reaches it. Every listed key
visited after it is then encrypted under that encrypted secret.

## Model

| member | source | states |
|---|---|---|
| `JsStrings.Split` | src/lib/utils.ts:134-137 | `split` always yields at least one piece, so the `headersArr.length > 0` guard always holds |
| `JsStrings.JoinSplit` | src/lib/utils.ts:134 | joining the pieces of a split with the separator gives back the original string |
| `JsStrings.SplitPiecesHaveNoSeparator` | src/lib/utils.ts:139 | no piece of a split contains the separator |
| `JsStrings.SplitNoSeparator` | src/lib/utils.ts:139 | a string without the separator splits into itself alone |
| `JsStrings.SplitAtFirstSeparator` | src/lib/utils.ts:139 | the first separator ends the first piece, and the rest is split on its own |
| `JsStrings.TrimDropsOnlyWhitespace` | src/lib/utils.ts:145-150 | `trim` keeps an infix that neither starts nor ends with white space and drops only white space on both sides |
| `JsStrings.TrimIdempotent` | src/lib/utils.ts:150 | trimming twice is trimming once |
| `JsStrings.ToLower` | src/lib/utils.ts:145 | lower-casing keeps the length and maps each upper-case ASCII letter to its lower case, leaving every other character |
| `JsStrings.Includes` | src/lib/utils.ts:227 | `message.includes(sub)` holds exactly when `sub` occurs at some position of the message |
| `Crypto.HexEncode` | src/lib/utils.ts:90 | the IV's hex form has two lower-case hex digits per byte |
| `Crypto.HexDecode` | src/lib/utils.ts:114 | `Buffer.from(h, "hex")` yields at most half as many bytes as there are characters |
| `Crypto.HexDecodeEncode` | src/lib/utils.ts:90-114 | decoding the hex form of a byte string gives the bytes back |
| `Crypto.HexDecodeFull` | src/lib/utils.ts:114 | an even-length hex string decodes in full exactly when every character is a hex digit |
| `Crypto.DeriveKey` | src/lib/utils.ts:78-82 | the key is the first 32 characters of the SHA-512 hex digest, or the whole digest if it is shorter |
| `Crypto.Encrypt` | src/lib/utils.ts:76-91 | every encryption in a process starts with the same 32 characters, the hex of the process IV |
| `Crypto.Decrypt` | src/lib/utils.ts:99-120 | `decrypt` rejects its input for a bad IV exactly when it is shorter than 32 characters or its first 32 are not all hex digits |
| `Crypto.IvPrefixDecodes` | src/lib/utils.ts:109-115 | the IV prefix decodes to 16 bytes exactly when it is 32 hex digits |
| `Crypto.DecryptEncrypt` | src/lib/utils.ts:76-120 | `decrypt(encrypt(d, k), k) == d` under the same IV, given only that the cipher round-trips |
| `HeaderParser.Find` | src/lib/utils.ts:170-172 | `find` returns the property exactly when it is in the list, and nothing otherwise |
| `HeaderParser.ScanEntry` | src/lib/utils.ts:139-156 | the segment loop leaves the key, the last-segment value and the override list that `ParseEntry` describes |
| `HeaderParser.CollectEntries` | src/lib/utils.ts:138-160 | the entry loop builds the object, key order and override list that `Collect` describes |
| `HeaderParser.CollectWellOrdered` | src/lib/utils.ts:157-159 | the insertion order lists every stored key exactly once, and the empty key is never stored |
| `HeaderParser.EncryptOne` | src/lib/utils.ts:173-180 | one encryption step never adds or removes a key |
| `HeaderParser.EncryptAll` | src/lib/utils.ts:168-181 | the `for..in` loop never adds or removes a key |
| `HeaderParser.EncryptListed` | src/lib/utils.ts:168-181 | the `for..in` loop computes exactly `EncryptAll` over the keys in insertion order |
| `HeaderParser.ParseHeaders` | src/lib/utils.ts:129-188 | `parseHeaders` returns `ParseHeadersSpec`, and the secret key is never a key of the result |
| `HeaderParser.EntryWithoutColon` | src/lib/utils.ts:139-158 | an entry without `:` is kept under its lower-cased, trimmed key with value `''` |
| `HeaderParser.EntryKeyValue` | src/lib/utils.ts:139-150 | `key:value` yields the lower-cased, trimmed key and the trimmed value |
| `HeaderParser.EntryWithTwoColons` | src/lib/utils.ts:143-155 | for `key:first:last` the value is the trimmed last segment, and a `keysforencryption` list comes from the first value segment |
| `HeaderParser.CollectKeys` | src/lib/utils.ts:157-159 | a key is in the object exactly when it is non-empty and some entry has it |
| `HeaderParser.CollectLastWins` | src/lib/utils.ts:157-158 | for a repeated key, the value of its last entry is stored |
| `HeaderParser.CollectNoOverride` | src/lib/utils.ts:136-153 | without a `keysforencryption` entry carrying a value, the override list stays empty |
| `HeaderParser.CollectLastOverride` | src/lib/utils.ts:146-153 | the last `keysforencryption` entry with a value decides the override list |
| `HeaderParser.OverrideReplacesArgument` | src/lib/utils.ts:162-166 | any override list replaces the comma-split `keysForEncryption` argument |
| `HeaderParser.EncryptAllWithoutSecret` | src/lib/utils.ts:173 | with no secret entry, the loop changes nothing |
| `HeaderParser.EncryptAllUnderSecret` | src/lib/utils.ts:168-181 | while the secret's own entry is not encrypted, each listed key is encrypted under the secret's value and every other value is unchanged |
| `HeaderParser.EncryptAllAppend` | src/lib/utils.ts:168-181 | the loop over two key sequences in a row is the loop over the first, then over the second |
| `HeaderParser.EncryptAllSecretListed` | src/lib/utils.ts:168-181 | if the secret's key is listed, keys before it are encrypted under the secret and listed keys after it under the encrypted secret |
| `HeaderParser.ParseHeadersKeys` | src/lib/utils.ts:183-185 | the result's keys are the parsed keys minus the secret key: nothing is added, and the secret is never returned |
| `HeaderParser.ParseHeadersWithoutSecret` | src/lib/utils.ts:173-185 | with no secret entry, the result is exactly the parsed object |
| `HeaderParser.ParseHeadersEncryptsListed` | src/lib/utils.ts:162-181 | with the secret's key unlisted, a value is encrypted under the secret exactly when its key is listed and the secret is present, and is the parsed value otherwise |
| `HeaderParser.KeysForEncryptionEntryKept` | src/lib/utils.ts:146-158 | the `keysforencryption` entry itself stays in the result unless it is the secret's key |
| `Proxy.McpProxy.constructor` | src/lib/utils.ts:25-27 | after wiring, both flags are clear and no call has been made |
| `Proxy.McpProxy.OnClientMessage` | src/lib/utils.ts:29-33 | a client message is sent unchanged to the server, and nothing else changes |
| `Proxy.McpProxy.OnServerMessage` | src/lib/utils.ts:35-39 | a server message is sent unchanged to the client, and nothing else changes |
| `Proxy.McpProxy.OnClientClose` | src/lib/utils.ts:41-48 | a client close is ignored once the server side closed; otherwise it sets the client flag and closes the server; the flags are never both set |
| `Proxy.McpProxy.OnServerClose` | src/lib/utils.ts:50-56 | a server close is ignored once the client side closed; otherwise it sets the server flag and closes the client; the flags are never both set |
| `Proxy.McpProxy.OnClientError` | src/lib/utils.ts:58-63 | client errors and failed client sends or closes are only logged: flags and calls are unchanged |
| `Proxy.McpProxy.OnServerError` | src/lib/utils.ts:59-67 | server errors and failed server sends or closes are only logged: flags and calls are unchanged |
| `Proxy.MessageThenClose` | src/lib/utils.ts:29-56 | a message followed by a close reaches the server before its close, and the induced close does not bounce back to the client |
| `CallbackServer.OAuthCallbackServer.constructor` | src/lib/utils.ts:265-273 | the server starts with no code, an unresolved completion and no held requests or waiters |
| `CallbackServer.OAuthCallbackServer.Redirect` | src/lib/utils.ts:316-331 | a missing or empty code answers 400 and changes nothing; otherwise the code is stored, the completion resolves only the first time, every waiter gets the code, and the answer is 200 |
| `CallbackServer.OAuthCallbackServer.WaitForAuthRequest` | src/lib/utils.ts:276-295 | `/wait-for-auth` answers 200 if a code is stored, 202 if `poll` is `'false'`, and otherwise holds the request with its timer armed |
| `CallbackServer.OAuthCallbackServer.LongPollTimeout` | src/lib/utils.ts:292-295 | the timer answers 202; the handler checks nothing, and this is still the request's only response |
| `CallbackServer.OAuthCallbackServer.LongPollCompleted` | src/lib/utils.ts:298-305 | the completion clears the timer and answers 200 only if nothing was sent yet |
| `CallbackServer.OAuthCallbackServer.WaitForAuthCode` | src/lib/utils.ts:337-348 | with a code stored, the code is returned at once and no waiter is registered; otherwise one waiter is registered |
| `CallbackServer.HeldRequestAnsweredOnce` | src/lib/utils.ts:291-305 | a held request gets exactly one response: 202 if the timer fires first, 200 if the completion comes first |
| `CallbackServer.CodeReachesWaiters` | src/lib/utils.ts:316-348 | a `waitForAuthCode` call made before a redirect resolves with its code; a call made after returns that code at once |
| `CommandLine.FirstIndex` | src/lib/utils.ts:402 | `indexOf` is -1 exactly when the element is absent, and otherwise the position of its first occurrence |
| `CommandLine.IndexOf` | src/lib/utils.ts:402-440 | the search loop returns `FirstIndex` |
| `CommandLine.ArgList.Splice` | src/lib/utils.ts:407-450 | `splice(start, n)` removes up to `n` elements from `start` and keeps the rest in order |
| `CommandLine.ParseCommandLineArgs` | src/lib/utils.ts:400-455 | `clean` is true exactly when `--clean` occurs, and its first occurrence is removed; a missing server URL, an unparsable one, or one `Accepted` rejects (anything but `https:`, or `http:` on `localhost` or `127.0.0.1`) is an error; otherwise the URL is `args[0]`, and `--header` with the element after it is spliced out and supplies `headers`, which is `''` without the flag |
| `Connection.UnauthorizedAnywhere` | src/lib/utils.ts:227 | under `IsUnauthorized`, the model of the check, a plain Error is unauthorized wherever `Unauthorized` occurs in its message |
| `Connection.NoOverrideListsPassword` | src/lib/utils.ts:208 | without an override, the encryption list is just `password`, which is not the secret key |
| `Connection.RequestHeadersProtectPassword` | src/lib/utils.ts:208-215 | without an override, the request never carries `secret`, `password` is encrypted under it when present, and every other header is sent as parsed |
| `Connection.ConnectRetriesOnceOnUnauthorized` | src/lib/utils.ts:222-257 | `Connect`, the model of the flow, returns the first transport if it starts; only an unauthorized failure leads to a retry, once, on a new transport; every other failure is rethrown unchanged |

## Left out

- SHA-512, AES-256-CBC and `crypto.randomBytes`: they are the function values of `Crypto.Primitives`, and the process IV is a parameter. `CipherRoundTrips` is a hypothesis of the round-trip lemma, not something proved.
- The `decrypt` that `parseHeaders` runs on each new ciphertext only feeds a log line. Under `CipherRoundTrips`, `DecryptEncrypt` shows it returns the plaintext, so the model omits it.
- Every `log`/`console.error` line is left out, except the proxy's error logging, which is kept as a ghost log.
- JavaScript strings are UTF-16 code units. Here they are sequences of Unicode scalar values.
- JsStrings.ToLower: maps only the ASCII letters. `toLowerCase` also maps non-ASCII letters.
- `for..in` visits integer-like keys (such as `"0"`) first, in numeric order. The model always uses insertion order. This only matters when the secret's own key is in the encryption list.
- JavaScript object quirks are not modelled: `in` seeing prototype keys such as `toString`, and assigning to `__proto__`. The credentials object is a plain map.
- `findAvailablePort`: its result is the `findAvailablePort` input, because it binds OS sockets and waits on socket events. The input is a total function. So the rejection on a bind error other than `EADDRINUSE` (lines 376-377), which makes `parseCommandLineArgs` reject, is not modelled. `getServerUrlHash` (MD5) is not modelled for the same reason.
- Express routing, `app.listen`, response bodies, `setTimeout`/`clearTimeout`, promises and the `EventEmitter` are replaced by event methods. Only response statuses are modelled. No clock is modelled: the 30-second timer (`LongPollTimeoutMs`) firing is itself an event.
- The long poll's `.catch` branch (500) cannot be reached, because `authCompletedPromise` is never rejected.
- A `code` or `poll` query parameter given as an array is not modelled. Both are an optional string here.
- `setupOAuthCallbackServer` (lines 358-361) only re-exports. The `authCode` field of the returned object is a snapshot taken at setup, so it is always `null`.
- `connectToRemoteServer`: the SDK transport, `finishAuth` and the auth provider are left out. Their outcomes are the inputs of `Connection.Connect`. `skipBrowserAuth` only picks a log line.
- `setupSignalHandlers`, `process.exit`, `process.stdin.resume` and the version constant are process control. A `process.exit(1)` in `parseCommandLineArgs` is the `Usage` error, and a throwing `new URL` is `InvalidUrl`.
- `new URL` and `parseInt` are the `parseUrl` and `parseInt` inputs.
- The proxy's `send` and `close` calls are asynchronous. Their failures reach the model as `OnClientError`/`OnServerError` events.
