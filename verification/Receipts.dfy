/**
 * Gate receipts: `v1.<payload>.<signature>` strings in base64url without padding
 * (section 5 of RFC 4648), their verification, and the replay guard in front of the provider.
 */
module Receipts {
  import opened Common
  import opened Text

  newtype byte = x: int | 0 <= x < 256

  // ----- base64url -----

  function Symbol(v: int): (c: char)
    requires 0 <= v < 64
    ensures SymbolValue(c) == v && c != '=' && c != '.'
  {
    if v < 26 then (65 + v) as char
    else if v < 52 then (71 + v) as char
    else if v < 62 then (v - 4) as char
    else if v == 62 then '-' else '_'
  }

  /** Both alphabets are read: the decoder translates `-` and `_` and leaves `+` and `/` alone. */
  function SymbolValue(c: char): (v: int)
    ensures -1 <= v < 64
  {
    if 'A' <= c <= 'Z' then c as int - 65
    else if 'a' <= c <= 'z' then c as int - 71
    else if '0' <= c <= '9' then c as int + 4
    else if c == '-' || c == '+' then 62
    else if c == '_' || c == '/' then 63
    else -1
  }

  ghost predicate Symbols(s: string) {
    forall k :: 0 <= k < |s| ==> SymbolValue(s[k]) >= 0
  }

  /** The four symbols of three bytes. */
  function EncodeGroup(b0: byte, b1: byte, b2: byte): (s: string)
    ensures |s| == 4 && Symbols(s)
  {
    [Symbol(b0 as int / 4), Symbol(b0 as int % 4 * 16 + b1 as int / 16),
     Symbol(b1 as int % 16 * 4 + b2 as int / 64), Symbol(b2 as int % 64)]
  }

  function DecodeGroup(v0: int, v1: int, v2: int, v3: int): (byte, byte, byte)
    requires 0 <= v0 < 64 && 0 <= v1 < 64 && 0 <= v2 < 64 && 0 <= v3 < 64
  {
    ((v0 * 4 + v1 / 16) as byte, (v1 % 16 * 16 + v2 / 4) as byte, (v2 % 4 * 64 + v3) as byte)
  }

  /** `_encode`. A final group of one or two bytes keeps only its first two or three symbols. */
  function Encode(data: seq<byte>): string {
    if |data| == 0 then ""
    else if |data| == 1 then EncodeGroup(data[0], 0, 0)[..2]
    else if |data| == 2 then EncodeGroup(data[0], data[1], 0)[..3]
    else EncodeGroup(data[0], data[1], data[2]) + Encode(data[3..])
  }

  /** The first group of a run of symbols, absent symbols counting as zero. */
  function DecodeHead(s: string): (byte, byte, byte)
    requires |s| >= 2 && forall k :: 0 <= k < |s| ==> SymbolValue(s[k]) >= 0
  {
    DecodeGroup(SymbolValue(s[0]), SymbolValue(s[1]), if |s| > 2 then SymbolValue(s[2]) else 0,
                if |s| > 3 then SymbolValue(s[3]) else 0)
  }

  /** The bytes of a run of symbols; surplus low bits of the last symbol are dropped. */
  function DecodeSymbols(s: string): Option<seq<byte>>
    requires forall k :: 0 <= k < |s| ==> SymbolValue(s[k]) >= 0
  {
    if |s| == 0 then Some([])
    else if |s| == 1 then None
    else
      var (b0, b1, b2) := DecodeHead(s);
      if |s| == 2 then Some([b0])
      else if |s| == 3 then Some([b0, b1])
      else
        var rest := DecodeSymbols(s[4..]);
        if rest.None? then None else Some([b0, b1, b2] + rest.value)
  }

  function DropEquals(s: string): string {
    if s != "" && s[|s| - 1] == '=' then DropEquals(s[..|s| - 1]) else s
  }

  /** `_decode`: pads to a multiple of four, then decodes strictly. */
  function Decode(s: string): Option<seq<byte>> {
    var core := DropEquals(s);
    var padding := if |s| % 4 == 0 then 0 else 4 - |s| % 4;
    if |s| + padding - |core| > 2 || exists k :: 0 <= k < |core| && SymbolValue(core[k]) < 0 then None
    else DecodeSymbols(core)
  }

  ghost predicate PlainSymbols(s: string) {
    Symbols(s) && '=' !in s && '.' !in s
  }

  lemma {:induction false} EncodeIsPlain(data: seq<byte>)
    ensures PlainSymbols(Encode(data)) && |Encode(data)| % 4 != 1
  {
    hide Symbol, SymbolValue;
    if |data| > 2 {
      EncodeIsPlain(data[3..]);
    }
  }

  lemma QuotientAndRest(q: int, r: int, m: int)
    requires m in {4, 16} && 0 <= r < m
    ensures (q * m + r) / m == q && (q * m + r) % m == r
  {
  }

  /** Six bits, two and four, four and two, six: the parts of three bytes put together again. */
  lemma BitsRoundTrip(x: int, y: int, z: int)
    requires 0 <= x < 256 && 0 <= y < 256 && 0 <= z < 256
    ensures var (v0, v1, v2, v3) := (x / 4, x % 4 * 16 + y / 16, y % 16 * 4 + z / 64, z % 64);
            && 0 <= v0 < 64 && 0 <= v1 < 64 && 0 <= v2 < 64 && 0 <= v3 < 64
            && v0 * 4 + v1 / 16 == x && v1 % 16 * 16 + v2 / 4 == y && v2 % 4 * 64 + v3 == z
  {
    QuotientAndRest(x % 4, y / 16, 16);
    QuotientAndRest(y % 16, z / 64, 4);
  }

  lemma GroupSymbols(b0: byte, b1: byte, b2: byte)
    ensures var s := EncodeGroup(b0, b1, b2);
            && SymbolValue(s[0]) == b0 as int / 4
            && SymbolValue(s[1]) == b0 as int % 4 * 16 + b1 as int / 16
            && SymbolValue(s[2]) == b1 as int % 16 * 4 + b2 as int / 64
            && SymbolValue(s[3]) == b2 as int % 64
  {
    hide Symbol, SymbolValue;
  }

  lemma DecodesTo(v0: int, v1: int, v2: int, v3: int, b0: byte, b1: byte, b2: byte)
    requires 0 <= v0 < 64 && 0 <= v1 < 64 && 0 <= v2 < 64 && 0 <= v3 < 64
    requires v0 * 4 + v1 / 16 == b0 as int
    requires v1 % 16 * 16 + v2 / 4 == b1 as int
    requires v2 % 4 * 64 + v3 == b2 as int
    ensures DecodeGroup(v0, v1, v2, v3) == (b0, b1, b2)
  {
  }

  lemma GroupRoundTrip(b0: byte, b1: byte, b2: byte)
    ensures var s := EncodeGroup(b0, b1, b2);
            DecodeGroup(SymbolValue(s[0]), SymbolValue(s[1]), SymbolValue(s[2]), SymbolValue(s[3])) == (b0, b1, b2)
  {
    hide Symbol, SymbolValue, EncodeGroup, DecodeGroup;
    var s := EncodeGroup(b0, b1, b2);
    GroupSymbols(b0, b1, b2);
    BitsRoundTrip(b0 as int, b1 as int, b2 as int);
    DecodesTo(SymbolValue(s[0]), SymbolValue(s[1]), SymbolValue(s[2]), SymbolValue(s[3]), b0, b1, b2);
  }

  lemma HeadOfEncoded(data: seq<byte>)
    requires data != [] && Symbols(Encode(data))
    ensures |Encode(data)| >= 2
    ensures DecodeHead(Encode(data))
         == (data[0], if |data| > 1 then data[1] else 0, if |data| > 2 then data[2] else 0)
  {
    var b1, b2 := if |data| > 1 then data[1] else 0, if |data| > 2 then data[2] else 0;
    var g := EncodeGroup(data[0], b1, b2);
    var s := Encode(data);
    GroupRoundTrip(data[0], b1, b2);
    assert forall k :: 0 <= k < 4 && k < |s| ==> s[k] == g[k];
  }

  lemma DecodeStep(s: string, tail: string, data: seq<byte>)
    requires Symbols(s) && Symbols(tail) && |data| > 0 && |s| >= 2
    requires DecodeHead(s) == (data[0], if |data| > 1 then data[1] else 0, if |data| > 2 then data[2] else 0)
    requires if |data| < 3 then |s| == |data| + 1
             else |s| >= 4 && s[4..] == tail && DecodeSymbols(tail) == Some(data[3..])
    ensures DecodeSymbols(s) == Some(data)
  {
    if |data| == 1 {
      assert data == [data[0]];
    } else if |data| == 2 {
      assert data == [data[0], data[1]];
    } else {
      assert data == [data[0], data[1], data[2]] + data[3..];
    }
  }

  lemma EncodedTail(data: seq<byte>)
    requires |data| > 2
    ensures |Encode(data)| >= 4 && Encode(data)[4..] == Encode(data[3..])
  {
  }

  lemma {:induction false} DecodeSymbolsEncode(data: seq<byte>)
    requires Symbols(Encode(data))
    ensures DecodeSymbols(Encode(data)) == Some(data)
  {
    if |data| > 2 {
      EncodedTail(data);
      var tail := Encode(data)[4..];
      assert Symbols(tail) by {
        assert forall k :: 0 <= k < |tail| ==> tail[k] == Encode(data)[k + 4];
      }
      DecodeSymbolsEncode(data[3..]);
      HeadOfEncoded(data);
      DecodeStep(Encode(data), tail, data);
    } else if data != [] {
      HeadOfEncoded(data);
      DecodeStep(Encode(data), "", data);
    }
  }

  /** Decoding an encoded byte string gives it back, whatever its length modulo three. */
  lemma DecodeEncode(data: seq<byte>)
    ensures Decode(Encode(data)) == Some(data)
  {
    EncodeIsPlain(data);
    DecodePlain(Encode(data));
    DecodeSymbolsEncode(data);
  }

  lemma DecodePlain(s: string)
    requires PlainSymbols(s) && |s| % 4 != 1
    ensures Decode(s) == DecodeSymbols(s)
  {
    assert DropEquals(s) == s by {
      if s != "" { assert s[|s| - 1] in s; }
    }
  }

  // ----- Signing and verifying -----

  datatype Binding = Binding(target: string, capability: string, inputDigest: string, outputDigest: string,
                             action: string)

  datatype Claims = Claims(binding: Binding, issuedAt: int, expiresAt: int)

  /** HMAC-SHA256 under the gateway's secret and the JSON codec for claims. */
  datatype Crypto = Crypto(hmac: string -> seq<byte>, dump: Claims -> seq<byte>, parse: seq<byte> -> Option<Claims>)

  ghost predicate CodecRoundTrips(crypto: Crypto) {
    forall c :: crypto.parse(crypto.dump(c)) == Some(c)
  }

  datatype VerifyError =
    | Malformed | UnsupportedVersion | NotAscii | BadSignature | BadPayload | OutsideLifetime | Mismatch

  function Split(s: string): (parts: seq<string>)
    ensures |parts| >= 1
  {
    if s == "" then [""]
    else
      var rest := Split(s[1..]);
      if s[0] == '.' then [""] + rest else rest[0 := [s[0]] + rest[0]]
  }

  /** `GateReceiptSigner.sign` at clock reading `now`; the caller has checked `1 <= ttl <= 300`. */
  function Sign(crypto: Crypto, binding: Binding, ttl: int, now: real): string {
    var payload := Encode(crypto.dump(Claims(binding, now.Floor, now.Floor + ttl)));
    "v1." + payload + "." + Encode(crypto.hmac(payload))
  }

  /** The claims of a receipt with a valid signature. */
  function Authentic(crypto: Crypto, token: string): Result<Claims, VerifyError> {
    var parts := Split(token);
    if |parts| != 3 then Err(Malformed)
    else
      var signature := Decode(parts[2]);
      if signature.None? then Err(Malformed)
      else if parts[0] != "v1" then Err(UnsupportedVersion)
      else if exists c :: c in parts[1] && c > '\U{7F}' then Err(NotAscii)
      else if signature.value != crypto.hmac(parts[1]) then Err(BadSignature)
      else
        var payload := Decode(parts[1]);
        if payload.None? then Err(BadPayload)
        else
          var claims := crypto.parse(payload.value);
          if claims.None? then Err(BadPayload) else Ok(claims.value)
  }

  /** `GateReceiptSigner.verify` at clock reading `now`. */
  function Verify(crypto: Crypto, token: string, expected: Binding, now: real): Result<Binding, VerifyError> {
    var claims := Authentic(crypto, token);
    if claims.Err? then Err(claims.error)
    else if claims.value.issuedAt > now.Floor || claims.value.expiresAt < now.Floor then Err(OutsideLifetime)
    else if claims.value.binding != expected then Err(Mismatch)
    else Ok(expected)
  }

  lemma {:induction false} SplitNoDot(s: string)
    requires '.' !in s
    ensures Split(s) == [s]
  {
    if s != "" {
      SplitNoDot(s[1..]);
      assert s == [s[0]] + s[1..];
    }
  }

  lemma {:induction false} SplitAtDot(a: string, b: string)
    requires '.' !in a
    ensures Split(a + "." + b) == [a] + Split(b)
  {
    var s := a + "." + b;
    if a == "" {
      assert s[1..] == b;
    } else {
      assert s[1..] == a[1..] + "." + b;
      SplitAtDot(a[1..], b);
      assert a == [a[0]] + a[1..];
    }
  }

  lemma SplitToken(payload: string, signature: string)
    requires '.' !in payload && '.' !in signature
    ensures Split("v1." + payload + "." + signature) == ["v1", payload, signature]
  {
    SplitNoDot(signature);
    SplitAtDot(payload, signature);
    SplitAtDot("v1", payload + "." + signature);
    assert "v1." + payload + "." + signature == "v1" + "." + (payload + "." + signature);
  }

  lemma SymbolsAreAscii(s: string)
    requires PlainSymbols(s)
    ensures forall c :: c in s ==> c <= '\U{7F}'
  {
  }

  lemma SignedIsAuthentic(crypto: Crypto, binding: Binding, ttl: int, now: real)
    requires CodecRoundTrips(crypto)
    ensures Authentic(crypto, Sign(crypto, binding, ttl, now))
         == Ok(Claims(binding, now.Floor, now.Floor + ttl))
  {
    var claims := Claims(binding, now.Floor, now.Floor + ttl);
    var data := crypto.dump(claims);
    var payload := Encode(data);
    EncodeIsPlain(data);
    DecodeEncode(data);
    assert crypto.parse(data) == Some(claims);
    AuthenticToken(crypto, payload);
  }

  lemma AuthenticToken(crypto: Crypto, payload: string)
    requires PlainSymbols(payload) && Decode(payload).Some? && crypto.parse(Decode(payload).value).Some?
    ensures Authentic(crypto, "v1." + payload + "." + Encode(crypto.hmac(payload)))
         == Ok(crypto.parse(Decode(payload).value).value)
  {
    EncodeIsPlain(crypto.hmac(payload));
    DecodeEncode(crypto.hmac(payload));
    SplitToken(payload, Encode(crypto.hmac(payload)));
    SymbolsAreAscii(payload);
  }

  /** A signed receipt verifies for its own binding exactly during its lifetime, and for no other binding. */
  lemma SignThenVerify(crypto: Crypto, binding: Binding, ttl: int, signedAt: real, expected: Binding, now: real)
    requires CodecRoundTrips(crypto)
    ensures Verify(crypto, Sign(crypto, binding, ttl, signedAt), expected, now).Ok?
       <==> expected == binding && signedAt.Floor <= now.Floor <= signedAt.Floor + ttl
  {
    SignedIsAuthentic(crypto, binding, ttl, signedAt);
  }

  /** Two signatures give one receipt exactly when they sign one binding within the same second. */
  lemma SameReceiptExactly(crypto: Crypto, a: Binding, b: Binding, ttl: int, signedA: real, signedB: real)
    requires CodecRoundTrips(crypto)
    ensures Sign(crypto, a, ttl, signedA) == Sign(crypto, b, ttl, signedB)
       <==> a == b && signedA.Floor == signedB.Floor
  {
    hide Authentic;
    SignedIsAuthentic(crypto, a, ttl, signedA);
    SignedIsAuthentic(crypto, b, ttl, signedB);
  }

  // ----- The replay guard -----

  const RETENTION: real := 300.0

  /** SHA-256, taken to be injective. */
  datatype Digest = Sha256(of: string)

  datatype GuardVerdict = Consumed | Replayed | AtCapacity

  /** The digests still held at `now`. */
  function Held(used: map<Digest, real>, now: real): map<Digest, real> {
    map d | d in used && used[d] > now :: used[d]
  }

  function Consume(used: map<Digest, real>, maxEntries: nat, receipt: string, now: real): (map<Digest, real>,
                   GuardVerdict)
  {
    var held := Held(used, now);
    if Sha256(receipt) in held then (held, Replayed)
    else if |held| >= maxEntries then (held, AtCapacity)
    else (held[Sha256(receipt) := now + RETENTION], Consumed)
  }

  class ReceiptReplayGuard {
    const maxEntries: nat
    var used: map<Digest, real>

    constructor (maxEntries: nat)
      requires maxEntries >= 1
      ensures this.maxEntries == maxEntries && used == map[]
    {
      this.maxEntries := maxEntries;
      used := map[];
    }

    /** `_ReceiptReplayGuard.consume`; its error is raised for every verdict but `Consumed`. */
    method ConsumeReceipt(receipt: string, now: real) returns (verdict: GuardVerdict)
      modifies this
      ensures (used, verdict) == Consume(old(used), maxEntries, receipt, now)
    {
      var expired := set d | d in used && used[d] <= now;
      while expired != {}
        invariant forall d :: d in expired ==> d in used && used[d] <= now
        invariant forall d :: d in used <==> d in old(used) && (d in expired || old(used)[d] > now)
        invariant forall d :: d in used ==> used[d] == old(used)[d]
        decreases |expired|
      {
        var d :| d in expired;
        used := used - {d};
        expired := expired - {d};
      }
      assert used == Held(old(used), now);
      if Sha256(receipt) in used {
        verdict := Replayed;
      } else if |used| >= maxEntries {
        verdict := AtCapacity;
      } else {
        used := used[Sha256(receipt) := now + RETENTION];
        verdict := Consumed;
      }
    }
  }

  // ----- At most one acceptance -----

  /** One request at the guard: its receipt, the binding it claims, and the instant of both checks. */
  datatype Attempt = Attempt(receipt: string, expected: Binding, now: real)

  datatype GuardState = GuardState(used: map<Digest, real>, accepted: seq<bool>)

  /** Verification, then consumption, at one clock reading. */
  function Admit(crypto: Crypto, maxEntries: nat, st: GuardState, a: Attempt): GuardState {
    if Verify(crypto, a.receipt, a.expected, a.now).Err? then st.(accepted := st.accepted + [false])
    else
      var (used, verdict) := Consume(st.used, maxEntries, a.receipt, a.now);
      GuardState(used, st.accepted + [verdict == Consumed])
  }

  function AdmitAll(crypto: Crypto, maxEntries: nat, run: seq<Attempt>): (st: GuardState)
    ensures |st.accepted| == |run|
  {
    if run == [] then GuardState(map[], [])
    else Admit(crypto, maxEntries, AdmitAll(crypto, maxEntries, run[..|run| - 1]), run[|run| - 1])
  }

  ghost predicate ClockOrdered(run: seq<Attempt>) {
    forall i, j :: 0 <= i < j < |run| ==> run[i].now <= run[j].now
  }

  /** Whatever was accepted less than the retention ago is still held. */
  ghost predicate Remembers(st: GuardState, run: seq<Attempt>, now: real)
    requires |st.accepted| == |run|
  {
    forall i :: 0 <= i < |run| && st.accepted[i] && run[i].now + RETENTION > now ==>
      Sha256(run[i].receipt) in st.used && st.used[Sha256(run[i].receipt)] > now
  }

  lemma {:induction false} GuardRemembers(crypto: Crypto, maxEntries: nat, run: seq<Attempt>, now: real)
    requires ClockOrdered(run)
    requires run != [] ==> run[|run| - 1].now <= now
    ensures Remembers(AdmitAll(crypto, maxEntries, run), run, now)
    decreases |run|
  {
    if run != [] {
      var before, a := run[..|run| - 1], run[|run| - 1];
      GuardRemembers(crypto, maxEntries, before, a.now);
      GuardRemembers(crypto, maxEntries, before, now);
      RememberStep(crypto, maxEntries, AdmitAll(crypto, maxEntries, before), before, a, now);
      assert run == before + [a];
    }
  }

  lemma RememberStep(crypto: Crypto, maxEntries: nat, st: GuardState, before: seq<Attempt>, a: Attempt, now: real)
    requires |st.accepted| == |before| && a.now <= now
    requires Remembers(st, before, now)
    ensures Remembers(Admit(crypto, maxEntries, st, a), before + [a], now)
  {
    var st', run := Admit(crypto, maxEntries, st, a), before + [a];
    forall i | 0 <= i < |run| && st'.accepted[i] && run[i].now + RETENTION > now
      ensures Sha256(run[i].receipt) in st'.used && st'.used[Sha256(run[i].receipt)] > now
    {
      if i < |before| {
        assert run[i] == before[i] && st.accepted[i];
      }
    }
  }

  /** The whole seconds between a receipt's issue and its expiry. */
  function Lifetime(crypto: Crypto, receipt: string): int {
    var c := Authentic(crypto, receipt);
    if c.Ok? then c.value.expiresAt - c.value.issuedAt else 0
  }

  ghost predicate AcceptedOnce(crypto: Crypto, maxEntries: nat, run: seq<Attempt>, receipt: string) {
    var accepted := AdmitAll(crypto, maxEntries, run).accepted;
    forall i, j :: 0 <= i < j < |run| && run[i].receipt == receipt == run[j].receipt ==> !(accepted[i] && accepted[j])
  }

  lemma {:induction false} ShortReceiptsAreAcceptedOnce(crypto: Crypto, maxEntries: nat, run: seq<Attempt>,
                                                        receipt: string)
    requires ClockOrdered(run) && Lifetime(crypto, receipt) < 300
    ensures AcceptedOnce(crypto, maxEntries, run, receipt)
    decreases |run|
  {
    hide Authentic;
    if run != [] {
      var before, a := run[..|run| - 1], run[|run| - 1];
      ShortReceiptsAreAcceptedOnce(crypto, maxEntries, before, receipt);
      GuardRemembers(crypto, maxEntries, before, a.now);
      var st := AdmitAll(crypto, maxEntries, before);
      var accepted := AdmitAll(crypto, maxEntries, run).accepted;
      forall i | 0 <= i < |before| && run[i].receipt == receipt == a.receipt && accepted[i]
        ensures !accepted[|before|]
      {
        assert st.accepted[i] && before[i] == run[i];
        VerifiedWhenAccepted(crypto, maxEntries, before, i);
        if run[i].now + RETENTION <= a.now {
          assert a.now.Floor >= run[i].now.Floor + 300;
        }
      }
    }
  }

  lemma {:induction false} VerifiedWhenAccepted(crypto: Crypto, maxEntries: nat, run: seq<Attempt>, i: nat)
    requires i < |run| && AdmitAll(crypto, maxEntries, run).accepted[i]
    ensures Verify(crypto, run[i].receipt, run[i].expected, run[i].now).Ok?
    decreases |run|
  {
    if i < |run| - 1 {
      VerifiedWhenAccepted(crypto, maxEntries, run[..|run| - 1], i);
    }
  }

  /** The run that accepts a long-lived receipt twice: at its issue, and 300 seconds later. */
  function ReplayRun(crypto: Crypto, receipt: string): seq<Attempt> {
    var c := Authentic(crypto, receipt);
    if c.Err? then []
    else
      var issued := c.value.issuedAt as real;
      [Attempt(receipt, c.value.binding, issued), Attempt(receipt, c.value.binding, issued + RETENTION)]
  }

  lemma FirstAdmission(crypto: Crypto, maxEntries: nat, used: map<Digest, real>, t: string, c: Claims)
    requires |used| < maxEntries && Authentic(crypto, t) == Ok(c) && 0 <= c.expiresAt - c.issuedAt
    requires Sha256(t) !in used && forall d :: d in used ==> used[d] > c.issuedAt as real
    ensures Verify(crypto, t, c.binding, c.issuedAt as real).Ok?
    ensures Consume(used, maxEntries, t, c.issuedAt as real)
         == (used[Sha256(t) := c.issuedAt as real + RETENTION], Consumed)
  {
    hide Authentic;
    assert (c.issuedAt as real).Floor == c.issuedAt;
    assert Held(used, c.issuedAt as real) == used;
  }

  /** By the time the guard has forgotten a long-lived receipt, it still verifies. */
  lemma SecondAdmission(crypto: Crypto, maxEntries: nat, t: string, c: Claims)
    requires maxEntries >= 1 && Authentic(crypto, t) == Ok(c) && c.expiresAt - c.issuedAt >= 300
    ensures var later := c.issuedAt as real + RETENTION;
            && Verify(crypto, t, c.binding, later).Ok?
            && Consume(map[Sha256(t) := later], maxEntries, t, later).1 == Consumed
  {
    hide Authentic;
    var later := c.issuedAt as real + RETENTION;
    assert later.Floor == c.issuedAt + 300;
    assert Held(map[Sha256(t) := later], later) == map[];
  }

  lemma AdmitTwo(crypto: Crypto, maxEntries: nat, a: Attempt, b: Attempt)
    ensures AdmitAll(crypto, maxEntries, [a, b])
         == Admit(crypto, maxEntries, Admit(crypto, maxEntries, GuardState(map[], []), a), b)
  {
    hide Admit;
    var run := [a, b];
    assert run[..1] == [a] && [a][..0] == [];
    assert AdmitAll(crypto, maxEntries, [a][..0]) == GuardState(map[], []);
    assert AdmitAll(crypto, maxEntries, [a]) == Admit(crypto, maxEntries, GuardState(map[], []), a);
  }

  lemma LongReceiptsAreReplayed(crypto: Crypto, maxEntries: nat, receipt: string)
    requires maxEntries >= 1 && Lifetime(crypto, receipt) >= 300
    ensures ClockOrdered(ReplayRun(crypto, receipt))
    ensures !AcceptedOnce(crypto, maxEntries, ReplayRun(crypto, receipt), receipt)
  {
    hide Authentic, Verify, Consume, AdmitAll;
    var run, c := ReplayRun(crypto, receipt), Authentic(crypto, receipt).value;
    var held := map[Sha256(receipt) := c.issuedAt as real + RETENTION];
    FirstAdmission(crypto, maxEntries, map[], receipt, c);
    SecondAdmission(crypto, maxEntries, receipt, c);
    AdmitTwo(crypto, maxEntries, run[0], run[1]);
    assert Admit(crypto, maxEntries, GuardState(map[], []), run[0]) == GuardState(held, [true]);
    assert AdmitAll(crypto, maxEntries, run).accepted == [true, true];
  }

  /**
   * Exactly when a receipt string is accepted at most once: its lifetime is below the retention.
   * The signer admits lifetimes up to 300 seconds, the transaction uses its default of 30.
   */
  lemma AcceptedOnceExactlyWhenShort(crypto: Crypto, maxEntries: nat, receipt: string)
    requires maxEntries >= 1
    ensures (forall run :: ClockOrdered(run) ==> AcceptedOnce(crypto, maxEntries, run, receipt))
       <==> Lifetime(crypto, receipt) < 300
  {
    if Lifetime(crypto, receipt) < 300 {
      forall run | ClockOrdered(run) ensures AcceptedOnce(crypto, maxEntries, run, receipt) {
        ShortReceiptsAreAcceptedOnce(crypto, maxEntries, run, receipt);
      }
    } else {
      LongReceiptsAreReplayed(crypto, maxEntries, receipt);
    }
  }

  // ----- At most one admission of what was signed -----

  /** The signed segment of a receipt. */
  function PayloadOf(receipt: string): string {
    var parts := Split(receipt);
    if |parts| == 3 then parts[1] else ""
  }

  /** The signature is spelled as the signer spells it. */
  predicate IsCanonical(receipt: string) {
    var parts := Split(receipt);
    |parts| == 3 && Decode(parts[2]).Some? && parts[2] == Encode(Decode(parts[2]).value)
  }

  /** Both receipts are accepted somewhere in the run, the first before the second. */
  ghost predicate BothAccepted(crypto: Crypto, maxEntries: nat, run: seq<Attempt>, t: string, u: string) {
    var accepted := AdmitAll(crypto, maxEntries, run).accepted;
    exists i, j :: 0 <= i < j < |run| && run[i].receipt == t && run[j].receipt == u && accepted[i] && accepted[j]
  }

  lemma {:induction false} SplitJoins(s: string)
    ensures Join(".", Split(s)) == s
  {
    if s != "" {
      SplitJoins(s[1..]);
      var rest := Split(s[1..]);
      assert s == [s[0]] + s[1..];
      if s[0] == '.' {
        assert ([""] + rest)[1..] == rest;
        assert "" + "." + Join(".", rest) == "." + s[1..];
      } else {
        var grown := rest[0 := [s[0]] + rest[0]];
        assert grown[1..] == rest[1..];
        if |rest| == 1 {
          assert Join(".", grown) == [s[0]] + rest[0];
        } else {
          assert Join(".", grown) == ([s[0]] + rest[0]) + "." + Join(".", rest[1..]);
          assert [s[0]] + (rest[0] + "." + Join(".", rest[1..])) == ([s[0]] + rest[0]) + "." + Join(".", rest[1..]);
        }
      }
    }
  }

  lemma ThreeParts(s: string)
    requires |Split(s)| == 3
    ensures s == Split(s)[0] + "." + (Split(s)[1] + "." + Split(s)[2])
  {
    SplitJoins(s);
    var parts := Split(s);
    assert parts[1..][1..] == [parts[2]];
    assert Join(".", parts[1..]) == parts[1] + "." + parts[2];
  }

  /** Two authentic receipts for one payload carry the same claims and the same signature bytes. */
  lemma SamePayloadSameClaims(crypto: Crypto, t: string, u: string)
    requires Authentic(crypto, t).Ok? && Authentic(crypto, u).Ok? && PayloadOf(t) == PayloadOf(u)
    ensures Authentic(crypto, t) == Authentic(crypto, u)
    ensures |Split(t)| == 3 && |Split(u)| == 3 && Split(t)[0] == Split(u)[0]
    ensures Decode(Split(t)[2]) == Decode(Split(u)[2])
  {
    hide Split, Decode;
  }

  lemma CanonicalSpellingIsUnique(crypto: Crypto, t: string, u: string)
    requires Authentic(crypto, t).Ok? && Authentic(crypto, u).Ok? && PayloadOf(t) == PayloadOf(u)
    requires IsCanonical(t) && IsCanonical(u)
    ensures t == u
  {
    hide Split, Decode, Encode, Authentic;
    SamePayloadSameClaims(crypto, t, u);
    ThreeParts(t);
    ThreeParts(u);
  }

  /** Two spellings of one short-lived receipt are both accepted by some run, and one spelling never is twice. */
  lemma EverySpellingIsAcceptedOnce(crypto: Crypto, maxEntries: nat, t: string, u: string)
    requires maxEntries >= 2 && Authentic(crypto, t).Ok? && Authentic(crypto, u).Ok? && PayloadOf(t) == PayloadOf(u)
    requires 0 <= Lifetime(crypto, t) < 300
    ensures (exists run :: ClockOrdered(run) && BothAccepted(crypto, maxEntries, run, t, u)) <==> t != u
  {
    hide Authentic;
    if t == u {
      forall run | ClockOrdered(run) ensures !BothAccepted(crypto, maxEntries, run, t, u) {
        ShortReceiptsAreAcceptedOnce(crypto, maxEntries, run, t);
      }
    } else {
      SamePayloadSameClaims(crypto, t, u);
      TwoAtOnce(crypto, maxEntries, t, u, Authentic(crypto, t).value);
    }
  }

  /** Different receipts of one set of claims, both at the instant of their issue. */
  lemma TwoAtOnce(crypto: Crypto, maxEntries: nat, t: string, u: string, c: Claims)
    requires maxEntries >= 2 && t != u && Authentic(crypto, t) == Ok(c) == Authentic(crypto, u)
    requires 0 <= c.expiresAt - c.issuedAt
    ensures exists run :: ClockOrdered(run) && BothAccepted(crypto, maxEntries, run, t, u)
  {
    hide Authentic, Verify, Consume, AdmitAll;
    var at := c.issuedAt as real;
    var run := [Attempt(t, c.binding, at), Attempt(u, c.binding, at)];
    var held := map[Sha256(t) := at + RETENTION];
    FirstAdmission(crypto, maxEntries, map[], t, c);
    FirstAdmission(crypto, maxEntries, held, u, c);
    AdmitTwo(crypto, maxEntries, run[0], run[1]);
    assert Admit(crypto, maxEntries, GuardState(map[], []), run[0]) == GuardState(held, [true]);
    assert AdmitAll(crypto, maxEntries, run).accepted == [true, true];
    assert ClockOrdered(run) && BothAccepted(crypto, maxEntries, run, t, u);
  }

  /** What was signed for less than 300 seconds is admitted at most once where every receipt for it is canonical. */
  lemma CanonicalReceiptsAdmitOnce(crypto: Crypto, maxEntries: nat, run: seq<Attempt>, payload: string)
    requires ClockOrdered(run)
    requires forall i :: 0 <= i < |run| && PayloadOf(run[i].receipt) == payload ==>
               IsCanonical(run[i].receipt) && Lifetime(crypto, run[i].receipt) < 300
    ensures var accepted := AdmitAll(crypto, maxEntries, run).accepted;
            forall i, j :: 0 <= i < j < |run| && PayloadOf(run[i].receipt) == payload == PayloadOf(run[j].receipt) ==>
              !(accepted[i] && accepted[j])
  {
    hide Authentic, IsCanonical, PayloadOf;
    var accepted := AdmitAll(crypto, maxEntries, run).accepted;
    forall i, j | 0 <= i < j < |run| && PayloadOf(run[i].receipt) == payload == PayloadOf(run[j].receipt)
      ensures !(accepted[i] && accepted[j])
    {
      if accepted[i] && accepted[j] {
        VerifiedWhenAccepted(crypto, maxEntries, run, i);
        VerifiedWhenAccepted(crypto, maxEntries, run, j);
        CanonicalSpellingIsUnique(crypto, run[i].receipt, run[j].receipt);
        ShortReceiptsAreAcceptedOnce(crypto, maxEntries, run, run[i].receipt);
        assert false;
      }
    }
  }

  lemma PaddedDecodes(s: string)
    requires PlainSymbols(s) && (|s| % 4 == 2 || |s| % 4 == 3)
    ensures Decode(s + "=") == Decode(s)
  {
    hide DecodeSymbols;
    assert s[|s| - 1] in s;
    assert DropEquals(s) == s;
    assert (s + "=")[..|s|] == s && DropEquals(s + "=") == DropEquals(s);
  }

  lemma TailLength(data: seq<byte>)
    requires |data| > 2
    ensures |Encode(data)| == 4 + |Encode(data[3..])|
  {
    EncodedTail(data);
  }

  lemma {:induction false} EncodedLength(data: seq<byte>)
    ensures |Encode(data)| % 4 == (if |data| % 3 == 0 then 0 else |data| % 3 + 1)
  {
    hide Symbol, SymbolValue, EncodeGroup;
    if |data| > 2 {
      EncodedLength(data[3..]);
      TailLength(data);
    }
  }

  /** A signed receipt has a second spelling, with the padding the signer leaves out: HMAC-SHA256 yields 32 bytes. */
  lemma PaddedReceiptIsAuthentic(crypto: Crypto, binding: Binding, ttl: int, now: real)
    requires CodecRoundTrips(crypto)
    requires |crypto.hmac(Encode(crypto.dump(Claims(binding, now.Floor, now.Floor + ttl))))| == 32
    ensures var t := Sign(crypto, binding, ttl, now);
            && t + "=" != t && Authentic(crypto, t + "=") == Authentic(crypto, t) && Authentic(crypto, t).Ok?
            && PayloadOf(t + "=") == PayloadOf(t) && IsCanonical(t) && !IsCanonical(t + "=")
  {
    hide Encode, Decode, Split;
    var data := crypto.dump(Claims(binding, now.Floor, now.Floor + ttl));
    var payload := Encode(data);
    var mac := crypto.hmac(payload);
    var signature := Encode(mac);
    EncodeIsPlain(data);
    EncodeIsPlain(mac);
    EncodedLength(mac);
    DecodeEncode(mac);
    PaddedDecodes(signature);
    SplitToken(payload, signature);
    SplitToken(payload, signature + "=");
    var t := Sign(crypto, binding, ttl, now);
    assert t + "=" == "v1." + payload + "." + (signature + "=");
    SignedIsAuthentic(crypto, binding, ttl, now);
  }
}
