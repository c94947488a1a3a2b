/**
 * `parseCommandLineArgs` (src/lib/utils.ts): works on the caller's `args`
 * array in place, removing `--clean` and the `--header` pair with `splice`.
 * URL parsing, `parseInt` and `findAvailablePort` are given as function
 * values; `process.exit(1)` and a throwing `new URL` become error results.
 */
module CommandLine {

  import opened Base

  /** `xs.indexOf(x)` as a value: -1 when `x` is absent, else the position of its first occurrence. */
  function FirstIndex(xs: seq<string>, x: string): (i: int)
    ensures -1 <= i < |xs|
    ensures i == -1 <==> x !in xs
    ensures i >= 0 ==> xs[i] == x && x !in xs[..i]
    decreases |xs|
  {
    if |xs| == 0 then -1
    else if xs[0] == x then 0
    else
      var j := FirstIndex(xs[1..], x);
      assert xs == [xs[0]] + xs[1..];
      assert j >= 0 ==> xs[..j + 1] == [xs[0]] + xs[1..][..j];
      if j == -1 then -1 else j + 1
  }

  /** `args.indexOf(x)`. */
  method IndexOf(xs: seq<string>, x: string) returns (i: int)
    ensures i == FirstIndex(xs, x)
  {
    i := 0;
    while i < |xs|
      invariant 0 <= i <= |xs|
      invariant x !in xs[..i]
    {
      if xs[i] == x {
        return;
      }
      assert xs[..i + 1] == xs[..i] + [xs[i]];
      i := i + 1;
    }
    assert xs[..i] == xs;
    i := -1;
  }

  /** `s` without the `count` elements from `start` (fewer if the end comes first), as `splice` leaves it. */
  function Spliced(s: seq<string>, start: nat, count: nat): (r: seq<string>)
    requires start <= |s|
  {
    s[..start] + s[if start + count <= |s| then start + count else |s|..]
  }

  /** The caller's `args` array. */
  class ArgList {
    var elems: seq<string>

    constructor (elems: seq<string>)
      ensures this.elems == elems
    {
      this.elems := elems;
    }

    /** `args.splice(start, deleteCount)` for a start within the array. */
    method Splice(start: nat, deleteCount: nat)
      requires start <= |elems|
      modifies this
      ensures elems == Spliced(old(elems), start, deleteCount)
    {
      elems := Spliced(elems, start, deleteCount);
    }
  }

  /** The parts of `new URL(serverUrl)` that are checked. */
  datatype Url = Url(protocol: string, hostname: string)

  /** `https:` anywhere, or `http:` on the loopback host names. */
  predicate Accepted(url: Url)
  {
    var isLocalhost := (url.hostname == "localhost" || url.hostname == "127.0.0.1") && url.protocol == "http:";
    url.protocol == "https:" || isLocalhost
  }

  datatype ParsedArgs = ParsedArgs(serverUrl: string, callbackPort: int, clean: bool, headers: Option<string>)

  /** `process.exit(1)` after the usage message, or the TypeError of `new URL`. */
  datatype ArgsError = Usage | InvalidUrl

  /** JavaScript truthiness of `args[i]`: present and non-empty. */
  predicate Truthy(xs: seq<string>, i: nat)
  {
    i < |xs| && xs[i] != ""
  }

  /** The port the callback server uses: a non-zero `parseInt(args[1])`, else the one found. */
  function CallbackPort(args: seq<string>, parseInt: string -> Option<int>, found: int): (port: int)
  {
    var specifiedPort := if Truthy(args, 1) then parseInt(args[1]) else None;
    if specifiedPort.Some? && specifiedPort.value != 0 then specifiedPort.value else found
  }

  /**
   * `parseCommandLineArgs(args, defaultPort, usage)`.  `parseUrl` yields
   * `None` where `new URL` throws, `parseInt` yields `None` for NaN, and
   * `findAvailablePort` gives the port the allocator would resolve with.
   */
  method ParseCommandLineArgs(args: ArgList, defaultPort: int, parseUrl: string -> Option<Url>,
                              parseInt: string -> Option<int>, findAvailablePort: int -> int)
    returns (r: Result<ParsedArgs, ArgsError>)
    modifies args
    ensures var a0 := old(args.elems);
            var clean := "--clean" in a0;
            var a1 := if clean then Spliced(a0, FirstIndex(a0, "--clean"), 1) else a0;
            && (!Truthy(a1, 0) ==> r == Err(Usage) && args.elems == a1)
            && (Truthy(a1, 0) && parseUrl(a1[0]).None? ==> r == Err(InvalidUrl) && args.elems == a1)
            && (Truthy(a1, 0) && parseUrl(a1[0]).Some? && !Accepted(parseUrl(a1[0]).value) ==>
                  r == Err(Usage) && args.elems == a1)
            && (Truthy(a1, 0) && parseUrl(a1[0]).Some? && Accepted(parseUrl(a1[0]).value) ==>
                  && r.Ok?
                  && r.value.serverUrl == a1[0]
                  && r.value.clean == clean
                  && r.value.callbackPort == CallbackPort(a1, parseInt, findAvailablePort(defaultPort))
                  && ("--header" !in a1 ==> r.value.headers == Some("") && args.elems == a1)
                  && ("--header" in a1 ==>
                        var h := FirstIndex(a1, "--header");
                        && r.value.headers == (if h + 1 < |a1| then Some(a1[h + 1]) else None)
                        && args.elems == Spliced(a1, h, 2)))
  {
    var cleanIndex := IndexOf(args.elems, "--clean");
    var clean := cleanIndex != -1;
    if clean {
      args.Splice(cleanIndex, 1);
    }

    if !Truthy(args.elems, 0) {
      return Err(Usage);
    }
    var serverUrl := args.elems[0];
    var specifiedPort := if Truthy(args.elems, 1) then parseInt(args.elems[1]) else None;

    var url := parseUrl(serverUrl);
    if url.None? {
      return Err(InvalidUrl);
    }
    var isLocalhost := (url.value.hostname == "localhost" || url.value.hostname == "127.0.0.1") && url.value.protocol == "http:";
    if !(url.value.protocol == "https:" || isLocalhost) {
      return Err(Usage);
    }

    var callbackPort := if specifiedPort.Some? && specifiedPort.value != 0 then specifiedPort.value
                        else findAvailablePort(defaultPort);

    var headerIndex := IndexOf(args.elems, "--header");
    var header := headerIndex != -1;
    var headerValueIndex := headerIndex + 1;
    var headers: Option<string> := Some("");
    if header {
      if headerValueIndex != 0 {
        headers := if headerValueIndex < |args.elems| then Some(args.elems[headerValueIndex]) else None;
        args.Splice(headerIndex, 2);
      }
    }
    return Ok(ParsedArgs(serverUrl, callbackPort, clean, headers));
  }
}
