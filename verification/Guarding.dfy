/**
 * The guard between gateway and provider, said from the outside: which receipts are authentic, which requests it lets
 * through, that nothing sealed can be altered, and what its search for media finds.
 */
module Guarding {
  import opened Common
  import opened Contracts
  import opened Json
  import opened Receipts
  import opened Sealing
  import opened Text

  // ----- What decodes -----

  /** Symbols of either alphabet up to the trailing equals signs, of which there are at most two after padding. */
  ghost predicate IsEncoding(s: string, core: string) {
    && core <= s && (forall k :: |core| <= k < |s| ==> s[k] == '=') && (core != "" ==> core[|core| - 1] != '=')
    && (forall k :: 0 <= k < |core| ==> IsSymbol(core[k])) && |core| % 4 != 1
    && |s| + (if |s| % 4 == 0 then 0 else 4 - |s| % 4) - |core| <= 2
  }

  predicate IsSymbol(c: char) {
    'A' <= c <= 'Z' || 'a' <= c <= 'z' || '0' <= c <= '9' || c in "-_+/"
  }

  lemma {:induction false} DroppedEquals(s: string)
    ensures var core := DropEquals(s);
            && core <= s && (forall k :: |core| <= k < |s| ==> s[k] == '=') && (core != "" ==> core[|core| - 1] != '=')
  {
    if s != "" && s[|s| - 1] == '=' {
      DroppedEquals(s[..|s| - 1]);
    }
  }

  lemma {:induction false} SymbolsDecode(s: string)
    requires forall k :: 0 <= k < |s| ==> SymbolValue(s[k]) >= 0
    ensures DecodeSymbols(s).Some? <==> |s| % 4 != 1
    ensures DecodeSymbols(s).Some? ==> |DecodeSymbols(s).value| == |s| * 6 / 8
  {
    hide SymbolValue, DecodeGroup;
    if |s| >= 4 {
      SymbolsDecode(s[4..]);
    }
  }

  lemma SymbolsAreSymbols(c: char)
    ensures SymbolValue(c) >= 0 <==> IsSymbol(c)
  {
  }

  /** A string decodes exactly when it is such an encoding, to three bytes for four symbols. */
  lemma DecodesExactly(s: string, core: string)
    ensures Decode(s).Some? <==> exists c :: IsEncoding(s, c)
    ensures IsEncoding(s, core) ==> Decode(s).Some? && |Decode(s).value| == |core| * 6 / 8
  {
    hide SymbolValue, IsSymbol, DropEquals;
    forall c ensures SymbolValue(c) >= 0 <==> IsSymbol(c) {
      SymbolsAreSymbols(c);
    }
    DroppedEquals(s);
    var dropped := DropEquals(s);
    if forall k :: 0 <= k < |dropped| ==> SymbolValue(dropped[k]) >= 0 {
      SymbolsDecode(dropped);
    }
    forall c | IsEncoding(s, c) ensures c == dropped {
      assert forall k :: 0 <= k < |c| ==> c[k] == s[k];
      assert forall k :: 0 <= k < |dropped| ==> dropped[k] == s[k];
    }
    if Decode(s).Some? {
      assert IsEncoding(s, dropped);
    }
  }

  // ----- Authentic receipts -----

  lemma {:induction false} PartsHoldNoDots(s: string)
    ensures forall part :: part in Split(s) ==> '.' !in part
  {
    if s != "" {
      PartsHoldNoDots(s[1..]);
      var rest := Split(s[1..]);
      assert forall k :: 0 <= k < |rest| ==> rest[k] in rest;
    }
  }

  /** The signed payload and the signature of a receipt. */
  ghost predicate IsSigned(crypto: Crypto, token: string, payload: string, signature: string) {
    && token == "v1." + payload + "." + signature && '.' !in payload && '.' !in signature
    && (forall c :: c in payload ==> c <= '\U{7F}')
    && Decode(signature) == Some(crypto.hmac(payload))
  }

  ghost predicate IsReceiptFor(crypto: Crypto, token: string, claims: Claims) {
    exists payload, signature :: IsSigned(crypto, token, payload, signature)
      && Decode(payload).Some? && crypto.parse(Decode(payload).value) == Some(claims)
  }

  /** Authentic receipts are exactly those whose signature decodes to the code of their payload under the secret. */
  lemma AuthenticExactly(crypto: Crypto, token: string, claims: Claims)
    ensures Authentic(crypto, token) == Ok(claims) <==> IsReceiptFor(crypto, token, claims)
  {
    hide Split, Decode;
    if Authentic(crypto, token) == Ok(claims) {
      var parts := Split(token);
      ThreeParts(token);
      PartsHoldNoDots(token);
      assert parts[1] in parts && parts[2] in parts;
      assert "v1" + "." + (parts[1] + "." + parts[2]) == "v1." + parts[1] + "." + parts[2];
      assert IsSigned(crypto, token, parts[1], parts[2]);
    }
    if IsReceiptFor(crypto, token, claims) {
      var payload, signature :| IsSigned(crypto, token, payload, signature)
        && Decode(payload).Some? && crypto.parse(Decode(payload).value) == Some(claims);
      SplitToken(payload, signature);
    }
  }

  // ----- Requests the guard lets through -----

  ghost predicate IsCovered(crypto: Crypto, s: Sealed, now: real) {
    exists c :: IsReceiptFor(crypto, s.receipt, c) && c.binding == s.binding && c.issuedAt <= now.Floor <= c.expiresAt
  }

  ghost predicate IsConsistent(s: Sealed)
    requires s.payload.Obj?
  {
    && s.binding.capability in {"vision", "non_vision"} && s.binding.action in {"passthrough", "converted"}
    && (s.binding.action == "converted" ==> s.binding.capability == "non_vision")
    && s.payload.Get("model") == Str(s.binding.target)
    && s.payload.Get("previous_response_id").Null? && s.payload.Get("conversation").Null?
    && (s.binding.capability == "non_vision" ==> !ContainsMedia(s.payload))
  }

  /** The guard accepts exactly the requests that are covered by a living receipt, digest included, and consistent. */
  lemma GuardAcceptsExactly(crypto: Crypto, digests: Digests, s: Sealed, now: real)
    requires s.payload.Obj?
    ensures VerifySeal(crypto, digests, s, now).None?
       <==> IsTokenText(s.nonce, 16, 64) && digests.payload(s.payload, s.nonce) == s.binding.outputDigest
            && IsCovered(crypto, s, now) && IsConsistent(s)
  {
    hide ContainsMedia, Authentic, IsTokenText, IsReceiptFor;
    var claims := Authentic(crypto, s.receipt);
    if claims.Ok? {
      AuthenticExactly(crypto, s.receipt, claims.value);
    }
    if IsCovered(crypto, s, now) {
      var c :| IsReceiptFor(crypto, s.receipt, c) && c.binding == s.binding && c.issuedAt <= now.Floor <= c.expiresAt;
      AuthenticExactly(crypto, s.receipt, c);
    }
  }

  /** SHA-256 over the canonical JSON of a payload and its nonce, taken to be injective. */
  ghost predicate TellsApart(digests: Digests) {
    forall a, b, m, n :: digests.payload(a, m) == digests.payload(b, n) ==> a == b && m == n
  }

  /**
   * Nothing that was sealed can be altered: a request the guard accepts under the receipt of another has its binding,
   * its payload and its nonce.
   */
  lemma SealedCannotBeAltered(crypto: Crypto, digests: Digests, original: Sealed, sealedAt: real, s: Sealed, now: real)
    requires CodecRoundTrips(crypto) && TellsApart(digests) && s.payload.Obj?
    requires original.receipt == Sign(crypto, original.binding, DEFAULT_TTL, sealedAt)
    requires digests.payload(original.payload, original.nonce) == original.binding.outputDigest
    requires s.receipt == original.receipt && VerifySeal(crypto, digests, s, now).None?
    ensures s == original
  {
    hide Authentic, ContainsMedia, Sign, IsNonce;
    SignedIsAuthentic(crypto, original.binding, DEFAULT_TTL, sealedAt);
  }

  // ----- What a search for media finds -----

  datatype Path = Item(index: nat) | Field(key: string)

  /** The value found by following items and fields, if there is one. */
  function Found(value: Json, path: seq<Path>): Option<Json> {
    if path == [] then Some(value)
    else
      match path[0]
      case Item(i) => if value.List? && i < |value.items| then Found(value.items[i], path[1..]) else None
      case Field(key) => if value.Obj? && key in value.fields then Found(value.fields[key], path[1..]) else None
  }

  /** The text starts with these characters, in small or in capital letters. */
  predicate StartsInAnyCase(s: string, prefix: string) {
    && |prefix| <= |s|
    && forall i :: 0 <= i < |prefix| ==>
         s[i] == prefix[i] || ('A' <= s[i] <= 'Z' && s[i] as int + 32 == prefix[i] as int)
  }

  lemma MediaDataInAnyCase(s: string)
    ensures StartsAsMediaData(s) <==> StartsInAnyCase(s, "data:image/") || StartsInAnyCase(s, "data:application/pdf")
  {
    LowerPrefix(s, "data:image/");
    LowerPrefix(s, "data:application/pdf");
  }

  lemma LowerPrefix(s: string, prefix: string)
    requires forall i :: 0 <= i < |prefix| ==> !('A' <= prefix[i] <= 'Z')
    ensures StartsWithLower(s, prefix) <==> StartsInAnyCase(s, prefix)
  {
  }

  /** A string that starts like inline media, or an object with a media type or a non-empty locator. */
  ghost predicate IsMedia(value: Json) {
    || (value.Str?
        && (StartsInAnyCase(value.text, "data:image/") || StartsInAnyCase(value.text, "data:application/pdf")))
    || (value.Obj?
        && (value.Get("type") in {Str("input_image"), Str("input_file"), Str("image_url")}
            || exists key :: key in LOCATOR_KEYS && value.Get(key).Str? && value.Get(key).text != ""))
  }

  lemma NamesAreMedia(value: Json)
    requires value.Obj?
    ensures IsMedia(value) <==> NamesMedia(value.fields)
  {
    if IsMedia(value) && !(value.Get("type") in {Str("input_image"), Str("input_file"), Str("image_url")}) {
      var key :| key in LOCATOR_KEYS && value.Get(key).Str? && value.Get(key).text != "";
      assert key in value.fields;
    }
    if NamesMedia(value.fields) && !("type" in value.fields && value.fields["type"].Str?
                                     && value.fields["type"].text in MEDIA_KINDS) {
      var key :| key in LOCATOR_KEYS && key in value.fields && value.fields[key].Str? && value.fields[key].text != "";
      assert value.Get(key).Str?;
    }
  }

  lemma {:induction false} FoundIsContained(value: Json, path: seq<Path>)
    requires Found(value, path).Some? && IsMedia(Found(value, path).value)
    ensures ContainsMedia(value)
    decreases path
  {
    hide StartsAsMediaData, StartsInAnyCase, NamesMedia, IsMedia;
    if path == [] {
      if value.Obj? {
        NamesAreMedia(value);
      } else {
        StringIsMedia(value);
      }
    } else {
      match path[0]
      case Item(i) => FoundIsContained(value.items[i], path[1..]);
      case Field(key) => FoundIsContained(value.fields[key], path[1..]);
    }
  }

  lemma StringIsMedia(value: Json)
    requires !value.Obj?
    ensures IsMedia(value) <==> value.Str? && StartsAsMediaData(value.text)
  {
    if value.Str? {
      MediaDataInAnyCase(value.text);
    }
  }

  lemma {:induction false} ContainedIsFound(value: Json) returns (path: seq<Path>)
    requires ContainsMedia(value)
    ensures Found(value, path).Some? && IsMedia(Found(value, path).value)
    decreases value
  {
    hide StartsAsMediaData, StartsInAnyCase, NamesMedia, IsMedia;
    match value
    case Str(_) =>
      path := [];
      StringIsMedia(value);
    case List(items) =>
      var i :| 0 <= i < |items| && ContainsMedia(items[i]);
      var rest := ContainedIsFound(items[i]);
      path := [Item(i)] + rest;
      assert path[1..] == rest;
    case Obj(fields) =>
      NamesAreMedia(value);
      if NamesMedia(fields) {
        path := [];
      } else {
        var key :| key in fields && ContainsMedia(fields[key]);
        var rest := ContainedIsFound(fields[key]);
        path := [Field(key)] + rest;
        assert path[1..] == rest;
      }
  }

  /** The search for media finds a value exactly when something at some depth of it is media. */
  lemma MediaAtAnyDepth(value: Json)
    ensures ContainsMedia(value) <==> exists path :: Found(value, path).Some? && IsMedia(Found(value, path).value)
  {
    hide ContainsMedia, Found, IsMedia;
    if ContainsMedia(value) {
      var path := ContainedIsFound(value);
    }
    if path: seq<Path> :| Found(value, path).Some? && IsMedia(Found(value, path).value) {
      FoundIsContained(value, path);
    }
  }
}
