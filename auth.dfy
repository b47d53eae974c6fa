/** `Auth`: the request headers the downloader authenticates with. In application mode a Bearer
    token obtained with the Basic credential `base64(key:secret)` is sent; in private (user) mode
    each request is signed in the manner of OAuth 1.0a: a parameter string of the sorted
    parameters, a signature base string, an HMAC-SHA1 signature and an `OAuth k="v", ...`
    header.

    The text primitives the code calls (`quote_plus`, `json.dumps`, `urlparse(url).path`, UTF-8
    encoding, HMAC-SHA1 and base64) are uninterpreted: they are fields of `Primitives`, so every
    property proved here holds whatever they compute. The nonce and the timestamp are inputs. */
module Auth {
  import opened Wrappers
  import opened Text
  import opened OAuthFields

  /** A value of the request's parameter dictionary, as `json.dumps` sees it. */
  datatype JsonValue = JStr(str: string) | JInt(n: int) | JBool(b: bool) | JNull

  datatype Primitives = Primitives(
    quotePlus: string -> string,                      // `urllib.parse.quote_plus`
    jsonDumps: JsonValue -> string,                   // `json.dumps`
    urlPath: string -> string,                        // `urlparse(url).path`
    utf8: string -> seq<bv8>,                         // `str.encode('utf8')`
    hmacSha1: (seq<bv8>, seq<bv8>) -> seq<bv8>,       // `hmac.new(key, msg, sha1).digest()`
    b64encode: seq<bv8> -> string)                    // `base64.b64encode(...).decode()`

  datatype AuthError =
    | MissingRequestParts    // private mode without a URL or an HTTP method
    | ParamsNotADict         // `params[key] = ...` with `params` None
    | NonStringSecret        // `consumer_secret + "&" + secret` with a secret that is not text
    | NonStringHeaderValue   // `quote_plus` of a header value that is not text
    | BearerTokenNotFetched  // `BearerTokenNotFetchedError`

  const TwitterHost: string := "https://api.twitter.com"
  const TokenUrl: string := "https://api.twitter.com/oauth2/token"
  const FormContentType: string := "application/x-www-form-urlencoded;charset=UTF-8"
  const SignatureMethod: string := "HMAC-SHA1"
  const OAuthVersion: string := "1.0"
  // ---------------------------------------------------------------------------
  // The Basic credential and the Bearer token

  /** The headers of the token request in `bearer(key, secret)`. */
  function BearerRequestHeaders(p: Primitives, key: string, secret: string): map<string, string>
  {
    map["Authorization" := "Basic " + p.b64encode(p.utf8(key + ":" + secret)),
        "Content-Type" := FormContentType]
  }

  /** The Basic credential carries `key:secret`: decoding it with any inverse of the base64
      encoding gives back the UTF-8 bytes of the key, a colon and the secret. */
  lemma BasicCredentialRoundTrip(p: Primitives, b64decode: string -> seq<bv8>, key: string, secret: string)
    requires forall x :: b64decode(p.b64encode(x)) == x
    ensures var auth := BearerRequestHeaders(p, key, secret)["Authorization"];
            StartsWith(auth, "Basic ") && b64decode(auth[6..]) == p.utf8(key + ":" + secret)
  {
    var cred := p.b64encode(p.utf8(key + ":" + secret));
    var auth := "Basic " + cred;
    assert auth[6..] == cred;
    assert auth[..6] == "Basic ";
  }

  /** The reply to the token request: its status and the `access_token` field of its body. */
  datatype TokenResponse = TokenResponse(status: int, accessToken: string)

  /** The outcome of `bearer`: the token on status 200, `BearerTokenNotFetchedError` otherwise. */
  function BearerToken(r: TokenResponse): (t: Result<string, AuthError>)
    ensures t.Ok? <==> r.status == 200
    ensures t.Ok? ==> t.value == r.accessToken
    ensures t.Err? ==> t.error == BearerTokenNotFetched
  {
    if r.status == 200 then Ok(r.accessToken) else Err(BearerTokenNotFetched)
  }

  // ---------------------------------------------------------------------------
  // The parameter string

  /** `key + "=" + json.dumps(params[key])` */
  function ParamPiece(p: Primitives, params: map<string, JsonValue>, k: string): string
    requires k in params
  {
    k + "=" + p.jsonDumps(params[k])
  }

  function ParamPieces(p: Primitives, params: map<string, JsonValue>, keys: seq<string>): (r: seq<string>)
    requires forall i :: 0 <= i < |keys| ==> keys[i] in params
    ensures |r| == |keys|
  {
    seq(|keys|, i requires 0 <= i < |keys| => ParamPiece(p, params, keys[i]))
  }

  /** The parameter string: one `key=json` piece per parameter, in sorted key order, joined by
      `&`. */
  ghost function ParamString(p: Primitives, params: map<string, JsonValue>): string
  {
    SortedKeysSorted(params.Keys);
    Join(ParamPieces(p, params, SortedKeys(params.Keys)), "&")
  }

  /** No parameters give the empty string; otherwise the string begins with the piece of the
      least key and ends with the encoded value of the greatest, so there is no `&` before the
      first piece or after the last. */
  lemma ParamStringEnds(p: Primitives, params: map<string, JsonValue>)
    ensures params == map[] ==> ParamString(p, params) == ""
    ensures forall k :: IsMinimum(k, params.Keys) ==> StartsWith(ParamString(p, params), k + "=")
    ensures forall k :: IsMaximum(k, params.Keys) ==>
              EndsWith(ParamString(p, params), p.jsonDumps(params[k]))
  {
    var ks := SortedKeys(params.Keys);
    SortedKeysSorted(params.Keys);
    if params != map[] {
      assert ks[0] in params.Keys;
      SortedEnds(ks, params.Keys);
      var pieces := ParamPieces(p, params, ks);
      JoinStartsWithFirst(pieces, "&");
      JoinEndsWithLast(pieces, "&");
      var first, last := ks[0], ks[|ks| - 1];
      assert StartsWith(pieces[0], first + "=") by {
        assert pieces[0] == (first + "=") + p.jsonDumps(params[first]);
      }
      assert EndsWith(pieces[|pieces| - 1], p.jsonDumps(params[last])) by {
        assert pieces[|pieces| - 1] == last + "=" + p.jsonDumps(params[last]);
      }
      forall k | IsMinimum(k, params.Keys) ensures StartsWith(ParamString(p, params), k + "=") {
        MinimumUnique(k, first, params.Keys);
      }
      forall k | IsMaximum(k, params.Keys)
        ensures EndsWith(ParamString(p, params), p.jsonDumps(params[k]))
      {
        MaximumUnique(k, last, params.Keys);
      }
    } else {
      assert params.Keys == {};
    }
  }

  lemma {:induction false} JoinStartsWithFirst(parts: seq<string>, sep: string)
    requires |parts| > 0
    ensures StartsWith(Join(parts, sep), parts[0])
  {
    if |parts| > 1 {
      var j := Join(parts, sep);
      assert j == parts[0] + (sep + Join(parts[1..], sep));
      assert j[..|parts[0]|] == parts[0];
    }
  }

  lemma {:induction false} JoinEndsWithLast(parts: seq<string>, sep: string)
    requires |parts| > 0
    ensures EndsWith(Join(parts, sep), parts[|parts| - 1])
    decreases |parts|
  {
    if |parts| > 1 {
      var rest := Join(parts[1..], sep);
      JoinEndsWithLast(parts[1..], sep);
      var j := Join(parts, sep);
      var last := parts[|parts| - 1];
      assert j == (parts[0] + sep) + rest;
      assert j[|j| - |last|..] == rest[|rest| - |last|..];
    }
  }

  // ---------------------------------------------------------------------------
  // The signature base string, the signing key and the signature

  /** `method.upper() + "&" + quote_plus(host + path) + "&" + quote_plus(param_string)` */
  function SignatureBase(p: Primitives, url: string, paramString: string, verb: string): string
  {
    AsciiUpper(verb) + "&" + p.quotePlus(TwitterHost + p.urlPath(url)) + "&" + p.quotePlus(paramString)
  }

  predicate NoAmpersand(s: string)
  {
    forall i :: 0 <= i < |s| ==> s[i] != '&'
  }

  /** `quote_plus` escapes `&`, as the real one does. */
  ghost predicate EscapesAmpersand(p: Primitives)
  {
    forall s :: NoAmpersand(p.quotePlus(s))
  }

  /** The base string splits back at its `&`s into the upper-cased method, the quoted URL and
      the quoted parameter string, provided the method has no `&` and `quote_plus` escapes it. */
  lemma SignatureBaseFields(p: Primitives, url: string, paramString: string, verb: string)
    requires NoAmpersand(verb) && EscapesAmpersand(p)
    ensures var base := SignatureBase(p, url, paramString, verb);
            var m := AsciiUpper(verb);
            var u := p.quotePlus(TwitterHost + p.urlPath(url));
            BeforeFirst(base, "&") == m &&
            BeforeFirst(base[|m| + 1..], "&") == u &&
            base[|m| + 1 + |u| + 1..] == p.quotePlus(paramString)
  {
    UpperNoAmpersand(verb);
    SplitThreeFields(SignatureBase(p, url, paramString, verb), AsciiUpper(verb),
                     p.quotePlus(TwitterHost + p.urlPath(url)), p.quotePlus(paramString));
  }

  lemma UpperNoAmpersand(verb: string)
    requires NoAmpersand(verb)
    ensures NoAmpersand(AsciiUpper(verb))
  {
  }

  lemma SplitThreeFields(base: string, m: string, u: string, q: string)
    requires base == m + "&" + u + "&" + q && NoAmpersand(m) && NoAmpersand(u)
    ensures BeforeFirst(base, "&") == m
    ensures BeforeFirst(base[|m| + 1..], "&") == u
    ensures base[|m| + 1 + |u| + 1..] == q
  {
    SplitAtSeparators(m, u, q, '&');
  }

  /** `signingKey()`: `consumer_secret + "&" + access_token_secret`, which raises unless the
      secret is text. */
  function SigningKey(consumerSecret: string, secret: JsonValue): (r: Result<string, AuthError>)
    ensures r.Ok? <==> secret.JStr?
    ensures r.Err? ==> r.error == NonStringSecret
  {
    if secret.JStr? then Ok(consumerSecret + "&" + secret.str) else Err(NonStringSecret)
  }

  /** The signing key splits back into the consumer secret and the token secret. */
  lemma SigningKeyFields(consumerSecret: string, secret: string)
    requires NoAmpersand(consumerSecret)
    ensures var key := SigningKey(consumerSecret, JStr(secret)).value;
            BeforeFirst(key, "&") == consumerSecret && key[|consumerSecret| + 1..] == secret
  {
    var key := consumerSecret + ['&'] + secret;
    BeforeFirstOfConcat(consumerSecret, '&', secret);
    assert key[|consumerSecret| + 1..] == secret;
  }

  /** `signSignature(base, key)`: the base64 text of the HMAC-SHA1 digest without its last
      character. */
  function SignSignature(p: Primitives, base: string, key: string): (r: string)
    ensures var encoded := p.b64encode(p.hmacSha1(p.utf8(key), p.utf8(base)));
            StartsWith(encoded, r) && |r| == (if |encoded| == 0 then 0 else |encoded| - 1)
  {
    var encoded := p.b64encode(p.hmacSha1(p.utf8(key), p.utf8(base)));
    if |encoded| == 0 then "" else encoded[..|encoded| - 1]
  }

  // ---------------------------------------------------------------------------
  // The header dictionary and the header string

  /** `headerDictionaryWithoutSignature()` */
  function HeaderDictionaryWithoutSignature(consumerKey: string, nonce: string, timestamp: nat,
                                            token: JsonValue): (h: map<string, JsonValue>)
    ensures forall k :: k in h <==> k in HeaderDictKeys
  {
    map[ConsumerKeyField := JStr(consumerKey),
        NonceField := JStr(nonce),
        SignatureMethodField := JStr(SignatureMethod),
        TimestampField := JStr(Decimal(timestamp)),
        TokenField := token,
        VersionField := JStr(OAuthVersion)]
  }

  /** The header values as text, when every one of them is text. */
  function Texts(h: map<string, JsonValue>): (r: Option<map<string, string>>)
    ensures r.Some? <==> forall k :: k in h ==> h[k].JStr?
    ensures r.Some? ==> r.value.Keys == h.Keys && forall k :: k in h ==> JStr(r.value[k]) == h[k]
  {
    if forall k :: k in h ==> h[k].JStr? then Some(map k | k in h :: h[k].str) else None
  }

  /** `quote_plus(key) + '="' + quote_plus(value) + '"'` */
  function HeaderPart(p: Primitives, k: string, v: string): string
  {
    p.quotePlus(k) + "=\"" + p.quotePlus(v) + "\""
  }

  function HeaderParts(p: Primitives, headers: map<string, string>, keys: seq<string>): (r: seq<string>)
    requires forall i :: 0 <= i < |keys| ==> keys[i] in headers
    ensures |r| == |keys|
  {
    seq(|keys|, i requires 0 <= i < |keys| => HeaderPart(p, keys[i], headers[keys[i]]))
  }

  /** The header string: `OAuth ` and the entries in sorted key order separated by `, `. (Cutting
      the last two characters of `OAuth ` when there is no entry leaves `OAut`.) */
  ghost function HeaderString(p: Primitives, headers: map<string, string>): string
  {
    if headers == map[] then "OAut"
    else
      SortedKeysSorted(headers.Keys);
      "OAuth " + Join(HeaderParts(p, headers, SortedKeys(headers.Keys)), ", ")
  }

  /** The OAuth header of a request: the header fields are copied into the parameters, the
      parameters are signed, and the signature is added to the fields, which are then written
      out. */
  ghost function OAuthHeader(p: Primitives, url: string, params: map<string, JsonValue>, verb: string,
                             consumerKey: string, consumerSecret: string, token: JsonValue,
                             secret: JsonValue, nonce: string, timestamp: nat): Result<string, AuthError>
  {
    var fields := HeaderDictionaryWithoutSignature(consumerKey, nonce, timestamp, token);
    var base := SignatureBase(p, url, ParamString(p, params + fields), verb);
    match SigningKey(consumerSecret, secret)
    case Err(e) => Err(e)
    case Ok(key) =>
      match Texts(fields[SignatureKey := JStr(SignSignature(p, base, key))])
      case None => Err(NonStringHeaderValue)
      case Some(texts) => Ok(HeaderString(p, texts))
  }

  /** A signed header lists, in this order, the consumer key, the nonce, the signature, the
      signature method `HMAC-SHA1`, the timestamp in decimal, the token and the version `1.0`;
      and it exists exactly when the token and its secret are text. */
  lemma OAuthHeaderLayout(p: Primitives, url: string, params: map<string, JsonValue>, verb: string,
                          consumerKey: string, consumerSecret: string, token: JsonValue,
                          secret: JsonValue, nonce: string, timestamp: nat)
    ensures OAuthHeader(p, url, params, verb, consumerKey, consumerSecret, token, secret, nonce, timestamp).Ok?
            <==> token.JStr? && secret.JStr?
    ensures !secret.JStr? ==>
              OAuthHeader(p, url, params, verb, consumerKey, consumerSecret, token, secret, nonce, timestamp)
                == Err(NonStringSecret)
    ensures token.JStr? && secret.JStr? ==>
              var fields := HeaderDictionaryWithoutSignature(consumerKey, nonce, timestamp, token);
              var base := SignatureBase(p, url, ParamString(p, params + fields), verb);
              var signature := SignSignature(p, base, consumerSecret + "&" + secret.str);
              OAuthHeader(p, url, params, verb, consumerKey, consumerSecret, token, secret, nonce, timestamp)
                == Ok("OAuth " + Join([HeaderPart(p, ConsumerKeyField, consumerKey),
                                       HeaderPart(p, NonceField, nonce),
                                       HeaderPart(p, SignatureKey, signature),
                                       HeaderPart(p, SignatureMethodField, SignatureMethod),
                                       HeaderPart(p, TimestampField, Decimal(timestamp)),
                                       HeaderPart(p, TokenField, token.str),
                                       HeaderPart(p, VersionField, OAuthVersion)], ", "))
  {
    var fields := HeaderDictionaryWithoutSignature(consumerKey, nonce, timestamp, token);
    var base := SignatureBase(p, url, ParamString(p, params + fields), verb);
    if secret.JStr? {
      var signature := SignSignature(p, base, consumerSecret + "&" + secret.str);
      var all := fields[SignatureKey := JStr(signature)];
      if token.JStr? {
        SignedTexts(consumerKey, nonce, timestamp, token.str, signature);
        SignedHeaderString(p, consumerKey, nonce, timestamp, token.str, signature);
      } else {
        assert TokenField in all && !all[TokenField].JStr?;
      }
    }
  }

  /** The seven header fields once signed, as text. */
  function SignedHeaders(consumerKey: string, nonce: string, timestamp: nat, token: string,
                         signature: string): map<string, string>
  {
    map[ConsumerKeyField := consumerKey,
        NonceField := nonce,
        SignatureMethodField := SignatureMethod,
        TimestampField := Decimal(timestamp),
        TokenField := token,
        VersionField := OAuthVersion,
        SignatureKey := signature]
  }

  lemma SignedTexts(consumerKey: string, nonce: string, timestamp: nat, token: string, signature: string)
    ensures Texts(HeaderDictionaryWithoutSignature(consumerKey, nonce, timestamp, JStr(token))
                    [SignatureKey := JStr(signature)])
            == Some(SignedHeaders(consumerKey, nonce, timestamp, token, signature))
  {
    var h0: map<string, JsonValue> := map[];
    var t0: map<string, string> := map[];
    assert Texts(h0) == Some(t0);
    TextsUpdate(h0, t0, ConsumerKeyField, consumerKey);
    var h1 := h0[ConsumerKeyField := JStr(consumerKey)];
    var t1 := t0[ConsumerKeyField := consumerKey];
    TextsUpdate(h1, t1, NonceField, nonce);
    var h2 := h1[NonceField := JStr(nonce)];
    var t2 := t1[NonceField := nonce];
    TextsUpdate(h2, t2, SignatureMethodField, SignatureMethod);
    var h3 := h2[SignatureMethodField := JStr(SignatureMethod)];
    var t3 := t2[SignatureMethodField := SignatureMethod];
    TextsUpdate(h3, t3, TimestampField, Decimal(timestamp));
    var h4 := h3[TimestampField := JStr(Decimal(timestamp))];
    var t4 := t3[TimestampField := Decimal(timestamp)];
    TextsUpdate(h4, t4, TokenField, token);
    var h5 := h4[TokenField := JStr(token)];
    var t5 := t4[TokenField := token];
    TextsUpdate(h5, t5, VersionField, OAuthVersion);
    var h6 := h5[VersionField := JStr(OAuthVersion)];
    var t6 := t5[VersionField := OAuthVersion];
    TextsUpdate(h6, t6, SignatureKey, signature);
  }

  /** Setting a key to text keeps the values all text, the text map set at that key. */
  lemma TextsUpdate(h: map<string, JsonValue>, t: map<string, string>, k: string, v: string)
    requires Texts(h) == Some(t)
    ensures Texts(h[k := JStr(v)]) == Some(t[k := v])
  {
    var h' := h[k := JStr(v)];
    assert forall key :: key in h' ==> h'[key].JStr?;
    var r := Texts(h').value;
    assert r.Keys == t[k := v].Keys;
    forall key | key in r ensures r[key] == t[k := v][key] {
      assert JStr(r[key]) == h'[key];
    }
    assert r == t[k := v];
  }

  lemma SignedHeaderString(p: Primitives, consumerKey: string, nonce: string, timestamp: nat,
                           token: string, signature: string)
    ensures HeaderString(p, SignedHeaders(consumerKey, nonce, timestamp, token, signature))
            == "OAuth " + Join([HeaderPart(p, ConsumerKeyField, consumerKey),
                                HeaderPart(p, NonceField, nonce),
                                HeaderPart(p, SignatureKey, signature),
                                HeaderPart(p, SignatureMethodField, SignatureMethod),
                                HeaderPart(p, TimestampField, Decimal(timestamp)),
                                HeaderPart(p, TokenField, token),
                                HeaderPart(p, VersionField, OAuthVersion)], ", ")
  {
    var texts := SignedHeaders(consumerKey, nonce, timestamp, token, signature);
    SignedHeaderKeys(consumerKey, nonce, timestamp, token, signature);
    HeaderKeysSorted(texts.Keys);
    SignedHeaderParts(p, consumerKey, nonce, timestamp, token, signature);
    assert NonceField in texts;
  }

  lemma SignedHeaderKeys(consumerKey: string, nonce: string, timestamp: nat, token: string,
                         signature: string)
    ensures forall k :: k in SignedHeaders(consumerKey, nonce, timestamp, token, signature)
                        <==> k in HeaderKeyOrder
  {
  }

  lemma SignedHeaderParts(p: Primitives, consumerKey: string, nonce: string, timestamp: nat,
                          token: string, signature: string)
    ensures forall k :: k in HeaderKeyOrder ==> k in SignedHeaders(consumerKey, nonce, timestamp, token, signature)
    ensures HeaderParts(p, SignedHeaders(consumerKey, nonce, timestamp, token, signature), HeaderKeyOrder)
            == [HeaderPart(p, ConsumerKeyField, consumerKey),
                HeaderPart(p, NonceField, nonce),
                HeaderPart(p, SignatureKey, signature),
                HeaderPart(p, SignatureMethodField, SignatureMethod),
                HeaderPart(p, TimestampField, Decimal(timestamp)),
                HeaderPart(p, TokenField, token),
                HeaderPart(p, VersionField, OAuthVersion)]
  {
    var texts := SignedHeaders(consumerKey, nonce, timestamp, token, signature);
    HeaderFieldsDistinct();
    var parts := HeaderParts(p, texts, HeaderKeyOrder);
    assert parts[0] == HeaderPart(p, ConsumerKeyField, consumerKey);
    assert parts[1] == HeaderPart(p, NonceField, nonce);
    assert parts[2] == HeaderPart(p, SignatureKey, signature);
    assert parts[3] == HeaderPart(p, SignatureMethodField, SignatureMethod);
    assert parts[4] == HeaderPart(p, TimestampField, Decimal(timestamp));
    assert parts[5] == HeaderPart(p, TokenField, token);
    assert parts[6] == HeaderPart(p, VersionField, OAuthVersion);
  }

  // ---------------------------------------------------------------------------
  // The computations of `oauth1a`, as the loops that perform them

  /** `signatureBaseForRequest(url, params, method)`: builds the parameter string by appending
      each sorted key's piece, after a `&` once the string is not empty. */
  method SignatureBaseForRequest(p: Primitives, url: string, params: map<string, JsonValue>, verb: string)
    returns (base: string)
    ensures base == SignatureBase(p, url, ParamString(p, params), verb)
  {
    var keys := SortKeys(params.Keys);
    SortedKeysSorted(params.Keys);
    var paramString := WriteParamString(p, params, keys);
    base := SignatureBase(p, url, paramString, verb);
  }

  /** The pieces of `keys`, each after a `&` once the string is not empty. */
  method WriteParamString(p: Primitives, params: map<string, JsonValue>, keys: seq<string>)
    returns (paramString: string)
    requires forall i :: 0 <= i < |keys| ==> keys[i] in params
    ensures paramString == Join(ParamPieces(p, params, keys), "&")
  {
    paramString := "";
    for i := 0 to |keys|
      invariant paramString == Join(ParamPieces(p, params, keys[..i]), "&")
      invariant i == 0 <==> paramString == ""
    {
      var piece := keys[i] + "=" + p.jsonDumps(params[keys[i]]);
      ParamPiecesSnoc(p, params, keys, i);
      if |paramString| > 0 {
        paramString := paramString + "&" + piece;
      } else {
        paramString := piece;
      }
    }
    assert keys[..|keys|] == keys;
  }

  /** One more key appends its piece, after a `&` when there are pieces before it. */
  lemma ParamPiecesSnoc(p: Primitives, params: map<string, JsonValue>, keys: seq<string>, i: nat)
    requires forall j :: 0 <= j < |keys| ==> keys[j] in params
    requires i < |keys|
    ensures var piece := keys[i] + "=" + p.jsonDumps(params[keys[i]]);
            var before := Join(ParamPieces(p, params, keys[..i]), "&");
            Join(ParamPieces(p, params, keys[..i + 1]), "&")
              == if i == 0 then piece else before + "&" + piece
    ensures |Join(ParamPieces(p, params, keys[..i + 1]), "&")| > 0
  {
    var piece := keys[i] + "=" + p.jsonDumps(params[keys[i]]);
    assert ParamPieces(p, params, keys[..i + 1]) == ParamPieces(p, params, keys[..i]) + [piece];
    if i > 0 {
      JoinSnoc(ParamPieces(p, params, keys[..i]), piece, "&");
    }
  }

  /** The loop of `headerStringForRequest` over the sorted header keys: `OAuth `, then each
      entry followed by `, `, then the last two characters cut off. */
  method WriteHeader(p: Primitives, headers: map<string, string>) returns (header: string)
    ensures header == HeaderString(p, headers)
  {
    var keys := SortKeys(headers.Keys);
    SortedKeysSorted(headers.Keys);
    header := WriteEntries(p, headers, keys);
    HeaderStringOfEntries(p, headers);
    if |keys| == 0 {
      header := "OAut";
    } else {
      header := header[..|header| - 2];
    }
  }

  /** `OAuth `, then each entry followed by `, `, in the order of `keys`. */
  method WriteEntries(p: Primitives, headers: map<string, string>, keys: seq<string>) returns (header: string)
    requires forall j :: 0 <= j < |keys| ==> keys[j] in headers
    ensures header == "OAuth " + ConcatEachWith(HeaderParts(p, headers, keys), ", ")
  {
    header := "OAuth ";
    for i := 0 to |keys|
      invariant header == "OAuth " + ConcatEachWith(HeaderParts(p, headers, keys[..i]), ", ")
    {
      var part := p.quotePlus(keys[i]) + "=\"" + p.quotePlus(headers[keys[i]]) + "\", ";
      HeaderPartsSnoc(p, headers, keys, i);
      header := header + part;
    }
    assert keys[..|keys|] == keys;
  }

  /** One more key adds its entry, followed by `, `. */
  lemma HeaderPartsSnoc(p: Primitives, headers: map<string, string>, keys: seq<string>, i: nat)
    requires forall j :: 0 <= j < |keys| ==> keys[j] in headers
    requires i < |keys|
    ensures "OAuth " + ConcatEachWith(HeaderParts(p, headers, keys[..i + 1]), ", ")
            == "OAuth " + ConcatEachWith(HeaderParts(p, headers, keys[..i]), ", ")
               + p.quotePlus(keys[i]) + "=\"" + p.quotePlus(headers[keys[i]]) + "\", "
  {
    var last := HeaderPart(p, keys[i], headers[keys[i]]);
    assert HeaderParts(p, headers, keys[..i + 1]) == HeaderParts(p, headers, keys[..i]) + [last];
    ConcatEachWithSnoc(HeaderParts(p, headers, keys[..i]), last, ", ");
  }

  /** The header string is `OAuth ` and every entry followed by `, `, without the last two
      characters. */
  lemma HeaderStringOfEntries(p: Primitives, headers: map<string, string>)
    ensures var keys := SortedKeys(headers.Keys);
            (forall j :: 0 <= j < |keys| ==> keys[j] in headers) &&
            var h := "OAuth " + ConcatEachWith(HeaderParts(p, headers, keys), ", ");
            |h| >= 2 &&
            HeaderString(p, headers) == if |keys| == 0 then "OAut" else h[..|h| - 2]
  {
    var keys := SortedKeys(headers.Keys);
    SortedKeysSorted(headers.Keys);
    if |keys| == 0 {
      assert headers.Keys == {};
    } else {
      ConcatEachWithIsJoinPlusSep(HeaderParts(p, headers, keys), ", ");
      assert headers != map[] by {
        assert keys[0] in headers.Keys;
      }
    }
  }

  lemma {:induction false} ConcatEachWithSnoc(parts: seq<string>, last: string, sep: string)
    ensures ConcatEachWith(parts + [last], sep) == ConcatEachWith(parts, sep) + last + sep
    decreases |parts|
  {
    if |parts| == 0 {
      assert [last][1..] == [];
    } else {
      assert (parts + [last])[1..] == parts[1..] + [last];
      ConcatEachWithSnoc(parts[1..], last, sep);
    }
  }

  /** The caller's parameter dictionary, which signing updates in place. */
  class ParamDict {
    var entries: map<string, JsonValue>

    constructor (entries: map<string, JsonValue>)
      ensures this.entries == entries
    {
      this.entries := entries;
    }
  }

  /** `headerStringForRequest(url, params, method)`: copies the header fields into `params`,
      signs, and writes the header. `params` being None raises at the first copy. */
  method HeaderStringForRequest(p: Primitives, url: string, params: ParamDict?, verb: string,
                                consumerKey: string, consumerSecret: string, token: JsonValue,
                                secret: JsonValue, nonce: string, timestamp: nat)
    returns (r: Result<string, AuthError>)
    modifies params
    ensures params == null ==> r == Err(ParamsNotADict)
    ensures params != null ==>
              params.entries == old(params.entries) + HeaderDictionaryWithoutSignature(consumerKey, nonce, timestamp, token) &&
              r == OAuthHeader(p, url, old(params.entries), verb, consumerKey, consumerSecret, token, secret, nonce, timestamp)
  {
    if params == null {
      return Err(ParamsNotADict);
    }
    var fields := HeaderDictionaryWithoutSignature(consumerKey, nonce, timestamp, token);
    CopyFields(params, fields, HeaderDictKeys);
    var base := SignatureBaseForRequest(p, url, params.entries, verb);
    var key := SigningKey(consumerSecret, secret);
    if key.Err? {
      return Err(key.error);
    }
    var headers := fields[SignatureKey := JStr(SignSignature(p, base, key.value))];
    var texts := Texts(headers);
    if texts.None? {
      return Err(NonStringHeaderValue);
    }
    var header := WriteHeader(p, texts.value);
    r := Ok(header);
  }

  /** `params[key] = value` for each header field, in the order `keys` lists them. */
  method CopyFields(params: ParamDict, fields: map<string, JsonValue>, keys: seq<string>)
    requires forall k :: k in fields <==> k in keys
    modifies params
    ensures params.entries == old(params.entries) + fields
  {
    ghost var copied: map<string, JsonValue> := map[];
    for i := 0 to |keys|
      invariant params.entries == old(params.entries) + copied
      invariant forall k :: k in copied <==> k in keys[..i]
      invariant forall k :: k in copied ==> copied[k] == fields[k]
    {
      var k := keys[i];
      params.entries := params.entries[k := fields[k]];
      copied := copied[k := fields[k]];
      assert keys[..i + 1] == keys[..i] + [k];
    }
    assert keys[..|keys|] == keys;
    assert copied == fields;
  }

  // ---------------------------------------------------------------------------
  // TwitterAuth

  /** `url and method`: both given and not empty. */
  predicate IsTruthyText(s: Option<string>)
  {
    s.Some? && s.value != ""
  }

  /** The headers `auth_headers(url, params, method)` returns: the Bearer header in application
      mode; in private mode the signed header, or an error when the URL or the method is missing
      or empty, or when there are no parameters. */
  ghost function AuthHeadersSpec(p: Primitives, isPrivate: bool, bearerToken: string,
                                 consumerKey: string, consumerSecret: string, token: JsonValue,
                                 secret: JsonValue, url: Option<string>,
                                 params: Option<map<string, JsonValue>>, verb: Option<string>,
                                 nonce: string, timestamp: nat): Result<map<string, string>, AuthError>
  {
    if !isPrivate then Ok(map["Authorization" := "Bearer " + bearerToken])
    else if !(IsTruthyText(url) && IsTruthyText(verb)) then Err(MissingRequestParts)
    else if params.None? then Err(ParamsNotADict)
    else
      match OAuthHeader(p, url.value, params.value, verb.value, consumerKey, consumerSecret,
                        token, secret, nonce, timestamp)
      case Err(e) => Err(e)
      case Ok(h) => Ok(map["Authorization" := h])
  }

  /** Application mode always sends exactly the Bearer header; private mode refuses a missing or
      empty URL or method before looking at anything else, and otherwise sends exactly one
      header, `Authorization`, whose value starts with `OAuth `. */
  lemma AuthHeadersModes(p: Primitives, isPrivate: bool, bearerToken: string, consumerKey: string,
                         consumerSecret: string, token: JsonValue, secret: JsonValue,
                         url: Option<string>, params: Option<map<string, JsonValue>>,
                         verb: Option<string>, nonce: string, timestamp: nat)
    ensures var r := AuthHeadersSpec(p, isPrivate, bearerToken, consumerKey, consumerSecret, token,
                                     secret, url, params, verb, nonce, timestamp);
            (!isPrivate ==> r == Ok(map["Authorization" := "Bearer " + bearerToken])) &&
            (isPrivate && (url.None? || url == Some("") || verb.None? || verb == Some("")) ==>
               r == Err(MissingRequestParts)) &&
            (isPrivate && r.Ok? ==>
               r.value.Keys == {"Authorization"} && StartsWith(r.value["Authorization"], "OAuth "))
  {
    var r := AuthHeadersSpec(p, isPrivate, bearerToken, consumerKey, consumerSecret, token,
                             secret, url, params, verb, nonce, timestamp);
    if isPrivate && r.Ok? {
      OAuthHeaderLayout(p, url.value, params.value, verb.value, consumerKey, consumerSecret,
                        token, secret, nonce, timestamp);
      var h := r.value["Authorization"];
      assert StartsWith(h, "OAuth ") by {
        assert h[..6] == "OAuth ";
      }
    }
  }

  class TwitterAuth {
    const consumerKey: string
    const consumerSecret: string
    const isPrivate: bool
    /** The Bearer token; fetched in application mode only. */
    const bearerToken: Option<string>
    /** The access token and its secret; in private mode without both of them given, the values
        of the PIN-based stub, which are the number 1 rather than text. */
    const accessToken: JsonValue
    const accessTokenSecret: JsonValue

    ghost predicate Valid()
    {
      isPrivate <==> bearerToken.None?
    }

    /** `TwitterAuth(consumer_key, consumer_secret, access_token, access_token_secret, private)`,
        with `bearer` the token the Bearer request returned (used in application mode only). */
    constructor (consumerKey: string, consumerSecret: string, accessToken: Option<string>,
                 accessTokenSecret: Option<string>, isPrivate: bool, bearer: string)
      ensures Valid()
      ensures this.consumerKey == consumerKey && this.consumerSecret == consumerSecret
      ensures this.isPrivate == isPrivate
      ensures !isPrivate ==> bearerToken == Some(bearer)
      ensures isPrivate && IsTruthyText(accessToken) && IsTruthyText(accessTokenSecret) ==>
                this.accessToken == JStr(accessToken.value) && this.accessTokenSecret == JStr(accessTokenSecret.value)
      ensures isPrivate && !(IsTruthyText(accessToken) && IsTruthyText(accessTokenSecret)) ==>
                this.accessToken == JInt(1) && this.accessTokenSecret == JInt(1)
    {
      this.consumerKey := consumerKey;
      this.consumerSecret := consumerSecret;
      this.isPrivate := isPrivate;
      if !isPrivate {
        this.bearerToken := Some(bearer);
        this.accessToken := JNull;
        this.accessTokenSecret := JNull;
      } else {
        this.bearerToken := None;
        if IsTruthyText(accessToken) && IsTruthyText(accessTokenSecret) {
          this.accessToken := JStr(accessToken.value);
          this.accessTokenSecret := JStr(accessTokenSecret.value);
        } else {
          this.accessToken := JInt(1);
          this.accessTokenSecret := JInt(1);
        }
      }
    }

    /** `auth_headers(url, params, method)`; signing updates `params` in place. */
    method AuthHeaders(p: Primitives, url: Option<string>, params: ParamDict?, verb: Option<string>,
                       nonce: string, timestamp: nat)
      returns (r: Result<map<string, string>, AuthError>)
      requires Valid()
      modifies params
      ensures r == AuthHeadersSpec(p, isPrivate, if isPrivate then "" else bearerToken.value,
                                   consumerKey, consumerSecret, accessToken, accessTokenSecret, url,
                                   if params == null then None else Some(old(params.entries)),
                                   verb, nonce, timestamp)
      ensures params != null ==>
                if isPrivate && IsTruthyText(url) && IsTruthyText(verb)
                then params.entries == old(params.entries) +
                       HeaderDictionaryWithoutSignature(consumerKey, nonce, timestamp, accessToken)
                else params.entries == old(params.entries)
    {
      if !isPrivate {
        return Ok(map["Authorization" := "Bearer " + bearerToken.value]);
      }
      if !(IsTruthyText(url) && IsTruthyText(verb)) {
        return Err(MissingRequestParts);
      }
      var header := HeaderStringForRequest(p, url.value, params, verb.value, consumerKey,
                                           consumerSecret, accessToken, accessTokenSecret,
                                           nonce, timestamp);
      if header.Err? {
        return Err(header.error);
      }
      r := Ok(map["Authorization" := header.value]);
    }
  }

  /** In private mode without both an access token and its secret, every signed request fails:
      the stub's secret is a number, and the signing key cannot be formed. */
  lemma PinStubCannotSign(p: Primitives, url: string, params: map<string, JsonValue>, verb: string,
                          consumerKey: string, consumerSecret: string, nonce: string, timestamp: nat)
    ensures OAuthHeader(p, url, params, verb, consumerKey, consumerSecret, JInt(1), JInt(1), nonce, timestamp)
              == Err(NonStringSecret)
  {
    OAuthHeaderLayout(p, url, params, verb, consumerKey, consumerSecret, JInt(1), JInt(1), nonce, timestamp);
  }
}
