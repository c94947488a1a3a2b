/**
 * `parseHeaders` (src/lib/utils.ts): turns `"k:v,k:v"` into a key-to-value
 * credentials object, lets a `keysforencryption` entry override which keys
 * are encrypted, encrypts those values with the value stored under the
 * secret key as passphrase, and finally deletes the secret entry.
 *
 * The JavaScript object is a map plus the sequence of its keys in insertion
 * order, which is the order `for..in` visits them.
 */
module HeaderParser {

  import opened Base
  import opened JsStrings
  import Crypto

  /** The header name that overrides the list of keys to encrypt. */
  const KeysForEncryptionHeader: string := "keysforencryption"

  /**
   * What one comma-separated entry contributes: its key (may be empty, then
   * the entry is skipped), its value, and for a `keysforencryption` entry
   * with a value the pipe-separated key list.
   */
  datatype Entry = Entry(key: string, value: string, keyList: Option<seq<string>>)

  /**
   * One entry split on `:`: the key is the first segment lower-cased and
   * trimmed; the value is the LAST segment trimmed, or `""` with no colon;
   * the override list comes from the FIRST value segment.
   */
  function ParseEntry(entry: string): (e: Entry)
  {
    var segs := Split(entry, ':');
    var key := Trim(ToLower(segs[0]));
    Entry(key,
          if |segs| == 1 then "" else Trim(segs[|segs| - 1]),
          if key == KeysForEncryptionHeader && |segs| >= 2 then Some(Split(Trim(segs[1]), '|')) else None)
  }

  /** The credentials object being built, its keys in insertion order, and `headersKeysForEncryptionArr`. */
  datatype Parsed = Parsed(credentials: map<string, string>, order: seq<string>, headerKeys: seq<string>)

  /** Adds one parsed entry: a later entry with the same key overwrites the value but keeps the key's position. */
  function AddEntry(p: Parsed, e: Entry): (q: Parsed)
  {
    Parsed(if e.key != "" then p.credentials[e.key := e.value] else p.credentials,
           if e.key != "" && e.key !in p.credentials then p.order + [e.key] else p.order,
           if e.keyList.Some? then e.keyList.value else p.headerKeys)
  }

  /** The state after the first loop of `parseHeaders` has seen `entries`. */
  function Collect(entries: seq<string>): (p: Parsed)
    decreases |entries|
  {
    if |entries| == 0 then Parsed(map[], [], [])
    else AddEntry(Collect(entries[..|entries| - 1]), ParseEntry(entries[|entries| - 1]))
  }

  /** The key order lists each credential exactly once, and no key is empty. */
  ghost predicate WellOrdered(p: Parsed)
  {
    && (forall k :: k in p.order <==> k in p.credentials)
    && (forall i, j :: 0 <= i < j < |p.order| ==> p.order[i] != p.order[j])
    && "" !in p.credentials
  }

  /** The list of keys to encrypt: the header's override when one was seen, else the argument split on commas. */
  function EffectiveKeys(headerKeys: seq<string>, keysForEncryption: string): (keys: seq<string>)
  {
    if |headerKeys| > 0 then headerKeys else Split(keysForEncryption, ',')
  }

  /** One step of the `for..in` loop: encrypt `property` when it is listed and the secret is present. */
  function EncryptOne(prims: Crypto.Primitives, iv: Crypto.Iv, creds: map<string, string>,
                      property: string, keys: seq<string>, secretKey: string): (r: map<string, string>)
    requires property in creds
    ensures r.Keys == creds.Keys
  {
    if property in keys && secretKey in creds then
      creds[property := Crypto.Encrypt(prims, iv, creds[property], creds[secretKey])]
    else creds
  }

  /** The `for..in` loop over `props`, in order; each step reads the secret's current value. */
  function EncryptAll(prims: Crypto.Primitives, iv: Crypto.Iv, creds: map<string, string>,
                      props: seq<string>, keys: seq<string>, secretKey: string): (r: map<string, string>)
    requires forall p :: p in props ==> p in creds
    ensures r.Keys == creds.Keys
    decreases |props|
  {
    if |props| == 0 then creds
    else EncryptAll(prims, iv, EncryptOne(prims, iv, creds, props[0], keys, secretKey), props[1..], keys, secretKey)
  }

  /** What `parseHeaders(headers, keysForEncryption, secretKey)` returns. */
  function ParseHeadersSpec(prims: Crypto.Primitives, iv: Crypto.Iv, headers: string,
                            keysForEncryption: string, secretKey: string): (credentials: map<string, string>)
  {
    var parsed := Collect(Split(headers, ','));
    CollectWellOrdered(Split(headers, ','));
    var keys := EffectiveKeys(parsed.headerKeys, keysForEncryption);
    EncryptAll(prims, iv, parsed.credentials, parsed.order, keys, secretKey) - {secretKey}
  }

  lemma AddEntryWellOrdered(p: Parsed, e: Entry)
    requires WellOrdered(p)
    requires e.key != "" && e.key !in p.credentials
    ensures WellOrdered(AddEntry(p, e))
  {
    var q := AddEntry(p, e);
    assert q.order == p.order + [e.key];
    forall i, j | 0 <= i < j < |q.order| ensures q.order[i] != q.order[j] {
      if j == |p.order| {
        assert q.order[i] == p.order[i];
        assert p.order[i] in p.credentials;
      }
    }
  }

  lemma {:induction false} CollectWellOrdered(entries: seq<string>)
    ensures WellOrdered(Collect(entries))
    decreases |entries|
  {
    if |entries| > 0 {
      var p := Collect(entries[..|entries| - 1]);
      var e := ParseEntry(entries[|entries| - 1]);
      CollectWellOrdered(entries[..|entries| - 1]);
      if e.key != "" && e.key !in p.credentials {
        AddEntryWellOrdered(p, e);
      }
    }
  }

  // ---------------------------------------------------------------------------
  // Parsing one entry.

  /** An entry without a colon is kept under its key with the empty value. */
  lemma EntryWithoutColon(entry: string)
    requires ':' !in entry
    ensures ParseEntry(entry) == Entry(Trim(ToLower(entry)), "", None)
  {
    SplitNoSeparator(entry, ':');
  }

  /** `key:value` gives the lower-cased, trimmed key and the trimmed value. */
  lemma EntryKeyValue(key: string, value: string)
    requires ':' !in key && ':' !in value
    ensures ParseEntry(key + ":" + value).key == Trim(ToLower(key))
    ensures ParseEntry(key + ":" + value).value == Trim(value)
  {
    assert key + ":" + value == key + [':'] + value;
    SplitAtFirstSeparator(key, ':', value);
    SplitNoSeparator(value, ':');
  }

  /**
   * `key:first:last` keeps the LAST segment as its value, while a
   * `keysforencryption` entry takes its key list from the FIRST.
   */
  lemma EntryWithTwoColons(key: string, first: string, last: string)
    requires ':' !in key && ':' !in first && ':' !in last
    ensures ParseEntry(key + ":" + first + ":" + last).key == Trim(ToLower(key))
    ensures ParseEntry(key + ":" + first + ":" + last).value == Trim(last)
    ensures ParseEntry(key + ":" + first + ":" + last).keyList ==
              if Trim(ToLower(key)) == KeysForEncryptionHeader then Some(Split(Trim(first), '|')) else None
  {
    var rest := first + [':'] + last;
    assert key + ":" + first + ":" + last == key + [':'] + rest;
    SplitAtFirstSeparator(key, ':', rest);
    SplitAtFirstSeparator(first, ':', last);
    SplitNoSeparator(last, ':');
  }

  // ---------------------------------------------------------------------------
  // The first loop: which keys end up in the object, with which values.

  /** A key is in the object exactly when it is non-empty and some entry has it. */
  lemma {:induction false} CollectKeys(entries: seq<string>, k: string)
    ensures k in Collect(entries).credentials <==>
              k != "" && exists j :: 0 <= j < |entries| && ParseEntry(entries[j]).key == k
    decreases |entries|
  {
    if |entries| > 0 {
      var init := entries[..|entries| - 1];
      CollectKeys(init, k);
      if exists j :: 0 <= j < |entries| && ParseEntry(entries[j]).key == k {
        var j :| 0 <= j < |entries| && ParseEntry(entries[j]).key == k;
        if j < |init| {
          assert init[j] == entries[j];
        }
      }
      if exists j :: 0 <= j < |init| && ParseEntry(init[j]).key == k {
        var j :| 0 <= j < |init| && ParseEntry(init[j]).key == k;
        assert entries[j] == init[j];
      }
    }
  }

  /** For a repeated key the last entry wins. */
  lemma {:induction false} CollectLastWins(entries: seq<string>, k: string, j: nat)
    requires k != "" && j < |entries| && ParseEntry(entries[j]).key == k
    requires forall l :: j < l < |entries| ==> ParseEntry(entries[l]).key != k
    ensures k in Collect(entries).credentials
    ensures Collect(entries).credentials[k] == ParseEntry(entries[j]).value
    decreases |entries|
  {
    var init := entries[..|entries| - 1];
    if j < |entries| - 1 {
      assert init[j] == entries[j];
      forall l | j < l < |init| ensures ParseEntry(init[l]).key != k {
        assert init[l] == entries[l];
      }
      CollectLastWins(init, k, j);
    }
  }

  /** With no `keysforencryption` entry carrying a value, there is no override. */
  lemma {:induction false} CollectNoOverride(entries: seq<string>)
    requires forall j :: 0 <= j < |entries| ==> ParseEntry(entries[j]).keyList.None?
    ensures Collect(entries).headerKeys == []
    decreases |entries|
  {
    if |entries| > 0 {
      var init := entries[..|entries| - 1];
      forall j | 0 <= j < |init| ensures ParseEntry(init[j]).keyList.None? {
        assert init[j] == entries[j];
      }
      CollectNoOverride(init);
    }
  }

  /** The last `keysforencryption` entry with a value decides the override list. */
  lemma {:induction false} CollectLastOverride(entries: seq<string>, j: nat)
    requires j < |entries| && ParseEntry(entries[j]).keyList.Some?
    requires forall l :: j < l < |entries| ==> ParseEntry(entries[l]).keyList.None?
    ensures Collect(entries).headerKeys == ParseEntry(entries[j]).keyList.value
    decreases |entries|
  {
    var init := entries[..|entries| - 1];
    if j < |entries| - 1 {
      assert init[j] == entries[j];
      forall l | j < l < |init| ensures ParseEntry(init[l]).keyList.None? {
        assert init[l] == entries[l];
      }
      CollectLastOverride(init, j);
    }
  }

  /** An override list is never empty, so any override replaces the argument's list. */
  lemma OverrideReplacesArgument(entries: seq<string>, j: nat, keysForEncryption: string)
    requires j < |entries| && ParseEntry(entries[j]).keyList.Some?
    requires forall l :: j < l < |entries| ==> ParseEntry(entries[l]).keyList.None?
    ensures EffectiveKeys(Collect(entries).headerKeys, keysForEncryption) == ParseEntry(entries[j]).keyList.value
  {
    CollectLastOverride(entries, j);
  }

  // ---------------------------------------------------------------------------
  // The second loop: selective encryption.

  /** Without the secret nothing is encrypted. */
  lemma {:induction false} EncryptAllWithoutSecret(prims: Crypto.Primitives, iv: Crypto.Iv, creds: map<string, string>,
                                                   props: seq<string>, keys: seq<string>, secretKey: string)
    requires forall p :: p in props ==> p in creds
    requires secretKey !in creds
    ensures EncryptAll(prims, iv, creds, props, keys, secretKey) == creds
    decreases |props|
  {
    if |props| > 0 {
      EncryptAllWithoutSecret(prims, iv, creds, props[1..], keys, secretKey);
    }
  }

  ghost predicate Distinct(props: seq<string>)
  {
    forall i, j :: 0 <= i < j < |props| ==> props[i] != props[j]
  }

  /** The value `parseHeaders` leaves under `p` when the secret's value stays fixed. */
  function ListedValue(prims: Crypto.Primitives, iv: Crypto.Iv, creds: map<string, string>,
                       props: seq<string>, keys: seq<string>, secretKey: string, p: string): (value: string)
    requires p in creds
  {
    if p in props && p in keys && secretKey in creds
    then Crypto.Encrypt(prims, iv, creds[p], creds[secretKey])
    else creds[p]
  }

  /**
   * While the secret's own entry is not encrypted (it is not listed, or not
   * visited), every listed key visited is encrypted under the secret's value,
   * and every other value is unchanged.
   */
  lemma {:induction false} EncryptAllUnderSecret(prims: Crypto.Primitives, iv: Crypto.Iv, creds: map<string, string>,
                                                 props: seq<string>, keys: seq<string>, secretKey: string)
    requires forall p :: p in props ==> p in creds
    requires Distinct(props)
    requires secretKey !in keys || secretKey !in props
    ensures forall p :: p in creds ==>
              EncryptAll(prims, iv, creds, props, keys, secretKey)[p] == ListedValue(prims, iv, creds, props, keys, secretKey, p)
    decreases |props|
  {
    if |props| > 0 {
      var next := EncryptOne(prims, iv, creds, props[0], keys, secretKey);
      var tail := props[1..];
      assert forall i :: 0 <= i < |tail| ==> tail[i] == props[i + 1];
      assert Distinct(tail);
      assert props == [props[0]] + tail;
      EncryptAllUnderSecret(prims, iv, next, tail, keys, secretKey);
      assert EncryptAll(prims, iv, creds, props, keys, secretKey) == EncryptAll(prims, iv, next, tail, keys, secretKey);
      forall p | p in creds
        ensures EncryptAll(prims, iv, creds, props, keys, secretKey)[p] == ListedValue(prims, iv, creds, props, keys, secretKey, p)
      {
        assert secretKey in creds <==> secretKey in next;
        assert secretKey in creds ==> next[secretKey] == creds[secretKey];
        if p == props[0] {
          assert p !in tail;
        } else {
          assert props == [props[0]] + tail;
          assert p in props <==> p in tail;
          assert next[p] == creds[p];
        }
      }
    }
  }

  /** The `for..in` loop over `a + b` is the loop over `a` followed by the loop over `b`. */
  lemma {:induction false} EncryptAllAppend(prims: Crypto.Primitives, iv: Crypto.Iv, creds: map<string, string>,
                                            a: seq<string>, b: seq<string>, keys: seq<string>, secretKey: string)
    requires forall p :: p in a + b ==> p in creds
    ensures forall p :: p in b ==> p in EncryptAll(prims, iv, creds, a, keys, secretKey)
    ensures EncryptAll(prims, iv, creds, a + b, keys, secretKey)
         == EncryptAll(prims, iv, EncryptAll(prims, iv, creds, a, keys, secretKey), b, keys, secretKey)
    decreases |a|
  {
    if |a| == 0 {
      assert a + b == b;
    } else {
      assert a == [a[0]] + a[1..];
      var next := EncryptOne(prims, iv, creds, a[0], keys, secretKey);
      assert (a + b)[0] == a[0] && (a + b)[1..] == a[1..] + b;
      EncryptAllAppend(prims, iv, next, a[1..], b, keys, secretKey);
      assert EncryptAll(prims, iv, creds, a + b, keys, secretKey) == EncryptAll(prims, iv, next, a[1..] + b, keys, secretKey);
      assert EncryptAll(prims, iv, creds, a, keys, secretKey) == EncryptAll(prims, iv, next, a[1..], keys, secretKey);
    }
  }

  /**
   * When the secret's own key IS listed, the loop encrypts the secret's value
   * in place when it reaches it, and every listed key visited after it is
   * encrypted under that encrypted secret, not under the secret itself.
   */
  lemma EncryptAllSecretListed(prims: Crypto.Primitives, iv: Crypto.Iv, creds: map<string, string>,
                               before: seq<string>, after: seq<string>, keys: seq<string>, secretKey: string)
    requires forall p :: p in before + [secretKey] + after ==> p in creds
    requires Distinct(before + [secretKey] + after)
    requires secretKey in keys
    ensures var result := EncryptAll(prims, iv, creds, before + [secretKey] + after, keys, secretKey);
            && (forall p :: p in before && p in keys ==>
                  result[p] == Crypto.Encrypt(prims, iv, creds[p], creds[secretKey]))
            && (forall p :: p in after && p in keys ==>
                  result[p] == Crypto.Encrypt(prims, iv, creds[p], Crypto.Encrypt(prims, iv, creds[secretKey], creds[secretKey])))
  {
    var props := before + [secretKey] + after;
    var mid := before + [secretKey];
    assert props == mid + after;
    assert forall i :: 0 <= i < |mid| ==> mid[i] == props[i];
    assert forall i :: 0 <= i < |after| ==> after[i] == props[|mid| + i];
    assert forall i :: 0 <= i < |before| ==> before[i] == props[i];
    assert Distinct(before) && Distinct(after);
    forall i | 0 <= i < |before| ensures before[i] != secretKey && before[i] !in after {
      assert props[i] != props[|before|];
      forall l | 0 <= l < |after| ensures after[l] != before[i] {
        assert props[i] != props[|mid| + l];
      }
    }
    forall l | 0 <= l < |after| ensures after[l] != secretKey {
      assert props[|before|] != props[|mid| + l];
    }
    EncryptAllAppend(prims, iv, creds, mid, after, keys, secretKey);
    EncryptAllAppend(prims, iv, creds, before, [secretKey], keys, secretKey);
    var c1 := EncryptAll(prims, iv, creds, before, keys, secretKey);
    EncryptAllUnderSecret(prims, iv, creds, before, keys, secretKey);
    var c2 := EncryptAll(prims, iv, c1, [secretKey], keys, secretKey);
    assert c2 == EncryptOne(prims, iv, c1, secretKey, keys, secretKey);
    assert c2[secretKey] == Crypto.Encrypt(prims, iv, creds[secretKey], creds[secretKey]);
    EncryptAllUnderSecret(prims, iv, c2, after, keys, secretKey);
    forall p | p in before && p in keys
      ensures EncryptAll(prims, iv, creds, props, keys, secretKey)[p] == Crypto.Encrypt(prims, iv, creds[p], creds[secretKey])
    {
      assert p !in after;
    }
  }

  // ---------------------------------------------------------------------------
  // The whole of parseHeaders.

  /** The secret entry is never returned, and no key is added: the keys are the parsed ones minus the secret. */
  lemma ParseHeadersKeys(prims: Crypto.Primitives, iv: Crypto.Iv, headers: string, keysForEncryption: string, secretKey: string)
    ensures ParseHeadersSpec(prims, iv, headers, keysForEncryption, secretKey).Keys ==
              Collect(Split(headers, ',')).credentials.Keys - {secretKey}
    ensures secretKey !in ParseHeadersSpec(prims, iv, headers, keysForEncryption, secretKey)
  {
  }

  /** Without a secret entry the result is exactly the parsed object. */
  lemma ParseHeadersWithoutSecret(prims: Crypto.Primitives, iv: Crypto.Iv, headers: string,
                                  keysForEncryption: string, secretKey: string)
    requires secretKey !in Collect(Split(headers, ',')).credentials
    ensures ParseHeadersSpec(prims, iv, headers, keysForEncryption, secretKey) == Collect(Split(headers, ',')).credentials
  {
    var parsed := Collect(Split(headers, ','));
    CollectWellOrdered(Split(headers, ','));
    EncryptAllWithoutSecret(prims, iv, parsed.credentials, parsed.order,
                            EffectiveKeys(parsed.headerKeys, keysForEncryption), secretKey);
  }

  /**
   * A returned value is the encryption of the parsed value under the secret
   * exactly when its key is in the effective list and the secret is present;
   * otherwise it is the parsed value (when the secret's own key is not listed).
   */
  lemma ParseHeadersEncryptsListed(prims: Crypto.Primitives, iv: Crypto.Iv, headers: string,
                                   keysForEncryption: string, secretKey: string)
    requires secretKey !in EffectiveKeys(Collect(Split(headers, ',')).headerKeys, keysForEncryption)
    ensures var parsed := Collect(Split(headers, ','));
            var keys := EffectiveKeys(parsed.headerKeys, keysForEncryption);
            var result := ParseHeadersSpec(prims, iv, headers, keysForEncryption, secretKey);
            forall k :: k in result ==>
              result[k] == if k in keys && secretKey in parsed.credentials
                           then Crypto.Encrypt(prims, iv, parsed.credentials[k], parsed.credentials[secretKey])
                           else parsed.credentials[k]
  {
    var parsed := Collect(Split(headers, ','));
    CollectWellOrdered(Split(headers, ','));
    EncryptAllUnderSecret(prims, iv, parsed.credentials, parsed.order,
                          EffectiveKeys(parsed.headerKeys, keysForEncryption), secretKey);
  }

  /** The `keysforencryption` entry itself is kept (unless it is the secret's key). */
  lemma KeysForEncryptionEntryKept(prims: Crypto.Primitives, iv: Crypto.Iv, headers: string,
                                   keysForEncryption: string, secretKey: string, j: nat)
    requires j < |Split(headers, ',')| && ParseEntry(Split(headers, ',')[j]).key == KeysForEncryptionHeader
    requires secretKey != KeysForEncryptionHeader
    ensures KeysForEncryptionHeader in ParseHeadersSpec(prims, iv, headers, keysForEncryption, secretKey)
  {
    CollectKeys(Split(headers, ','), KeysForEncryptionHeader);
  }

  // ---------------------------------------------------------------------------
  // The imperative code.

  /** `keysForEncryptionArr.find(element => element === property)`. */
  method Find(xs: seq<string>, x: string) returns (found: Option<string>)
    ensures found.Some? <==> x in xs
    ensures found.Some? ==> found.value == x
  {
    var i := 0;
    while i < |xs|
      invariant 0 <= i <= |xs|
      invariant x !in xs[..i]
    {
      if xs[i] == x {
        return Some(xs[i]);
      }
      i := i + 1;
    }
    return None;
  }

  /**
   * The inner `keyValArr.map` callback: scans the `:`-segments of one entry,
   * reassigning `k`, `v` and `headersKeysForEncryptionArr` as it goes.
   */
  method ScanEntry(entry: string, keyListIn: seq<string>) returns (k: string, v: string, keyList: seq<string>)
    ensures k == ParseEntry(entry).key && v == ParseEntry(entry).value
    ensures keyList == if ParseEntry(entry).keyList.Some? then ParseEntry(entry).keyList.value else keyListIn
  {
    var keyValArr := Split(entry, ':');
    k, v, keyList := "", "", keyListIn;
    var isHeadersKeysForEncryption := false;
    var idx := 0;
    while idx < |keyValArr|
      invariant 0 <= idx <= |keyValArr|
      invariant idx >= 1 ==> k == Trim(ToLower(keyValArr[0]))
      invariant v == if idx <= 1 then "" else Trim(keyValArr[idx - 1])
      invariant isHeadersKeysForEncryption <==> idx == 1 && k == KeysForEncryptionHeader
      invariant keyList == if idx >= 2 && k == KeysForEncryptionHeader then Split(Trim(keyValArr[1]), '|') else keyListIn
    {
      var val := keyValArr[idx];
      if idx == 0 {
        k := Trim(ToLower(val));
        if k == KeysForEncryptionHeader {
          isHeadersKeysForEncryption := true;
        }
      } else {
        v := Trim(val);
        if isHeadersKeysForEncryption {
          keyList := Split(v, '|');
          isHeadersKeysForEncryption := false;
        }
      }
      idx := idx + 1;
    }
  }

  /** The outer `headersArr.map` callback run over every entry: builds the credentials object. */
  method CollectEntries(headersArr: seq<string>) returns (parsed: Parsed)
    ensures parsed == Collect(headersArr)
  {
    var credentials: map<string, string> := map[];
    var order: seq<string> := [];
    var headersKeysForEncryptionArr: seq<string> := [];
    var idx := 0;
    while idx < |headersArr|
      invariant 0 <= idx <= |headersArr|
      invariant Parsed(credentials, order, headersKeysForEncryptionArr) == Collect(headersArr[..idx])
    {
      assert headersArr[..idx + 1][..idx] == headersArr[..idx];
      var k, v, keyList := ScanEntry(headersArr[idx], headersKeysForEncryptionArr);
      headersKeysForEncryptionArr := keyList;
      if k != "" {
        if k !in credentials {
          order := order + [k];
        }
        credentials := credentials[k := v];
      }
      idx := idx + 1;
    }
    assert headersArr[..idx] == headersArr;
    parsed := Parsed(credentials, order, headersKeysForEncryptionArr);
  }

  /** The `for..in` loop: encrypts, in key order, every listed value while the secret is present. */
  method EncryptListed(prims: Crypto.Primitives, iv: Crypto.Iv, parsed: Parsed,
                       keysForEncryptionArr: seq<string>, secretKey: string)
    returns (credentials: map<string, string>)
    requires WellOrdered(parsed)
    ensures credentials == EncryptAll(prims, iv, parsed.credentials, parsed.order, keysForEncryptionArr, secretKey)
  {
    credentials := parsed.credentials;
    var order := parsed.order;
    var i := 0;
    while i < |order|
      invariant 0 <= i <= |order|
      invariant credentials.Keys == parsed.credentials.Keys
      invariant EncryptAll(prims, iv, credentials, order[i..], keysForEncryptionArr, secretKey)
             == EncryptAll(prims, iv, parsed.credentials, order, keysForEncryptionArr, secretKey)
    {
      var property := order[i];
      var found := Find(keysForEncryptionArr, property);
      if found.Some? && found.value != "" && secretKey in credentials {
        var encrypted := Crypto.Encrypt(prims, iv, credentials[property], credentials[secretKey]);
        credentials := credentials[property := encrypted];
      }
      assert order[i..][1..] == order[i + 1..];
      i := i + 1;
    }
  }

  /**
   * `parseHeaders(headers, keysForEncryption, secretKey)`, with the process's
   * cryptographic primitives and IV as explicit parameters.
   */
  method ParseHeaders(prims: Crypto.Primitives, iv: Crypto.Iv, headers: string,
                      keysForEncryption: string, secretKey: string)
    returns (credentials: map<string, string>)
    ensures credentials == ParseHeadersSpec(prims, iv, headers, keysForEncryption, secretKey)
    ensures secretKey !in credentials
  {
    var headersArr := Split(headers, ',');
    credentials := map[];
    if |headersArr| > 0 {
      var parsed := CollectEntries(headersArr);
      CollectWellOrdered(headersArr);
      var keysForEncryptionArr := Split(keysForEncryption, ',');
      if |parsed.headerKeys| > 0 {
        keysForEncryptionArr := parsed.headerKeys;
      }
      credentials := EncryptListed(prims, iv, parsed, keysForEncryptionArr, secretKey);
      if secretKey in credentials {
        credentials := credentials - {secretKey};
      }
    }
  }
}
