/** Page cursors: what a token contains, which tokens are accepted, and the checks made before a page is read. */
module Cursor {
  import opened Prelude
  import opened KeyEncoding

  const CURSOR_PREFIX: string := "nf1."
  const CURSOR_VERSION: byte := 1
  const QUERY_HASH_LEN: nat := 16
  const MAC_LEN: nat := 16
  const FIXED_PAYLOAD_LEN: nat := 1 + 8 + 32 + QUERY_HASH_LEN + 2
  const MAX_CURSOR_LEN: nat := 1024

  datatype ApiError = BadRequest(message: string) | Gone(message: string) | Internal(message: string)

  datatype TipAnchor = TipAnchor(height: nat, hash: Bytes)
  {
    /** A u64 height and a 32-byte hash. */
    predicate Valid() {
      height < TWO_64 && |hash| == 32
    }
  }

  datatype DecodedCursor = DecodedCursor(anchor: TipAnchor, position: Bytes)
  {
    predicate Valid() {
      anchor.Valid() && |position| < 0x1_0000
    }
  }

  /** The keyed MAC, the digest and unpadded URL-safe base64 as functions. */
  datatype Codec = Codec(hmac: Bytes -> Bytes, sha256: Bytes -> Bytes, base64: Bytes -> string,
                         unbase64: string -> Option<Bytes>)
  {
    ghost predicate Valid() {
      && (forall b :: |hmac(b)| == 32 && |sha256(b)| == 32)
      && (forall s, b :: unbase64(s) == Some(b) <==> base64(b) == s)
      && (forall b :: |base64(b)| <= 4 * ((|b| + 2) / 3))
    }

    function QueryHash(scope: Bytes): (h: Bytes)
      requires |sha256(scope)| == 32
    {
      sha256(scope)[..QUERY_HASH_LEN]
    }

    function Mac(payload: Bytes): Bytes
      requires |hmac(payload)| == 32
    {
      hmac(payload)[..MAC_LEN]
    }
  }

  function U64(n: nat): (b: Bytes)
    ensures |b| == 8
  {
    BigEndian(n, 8)
  }

  function U16(n: nat): (b: Bytes)
    ensures |b| == 2
  {
    BigEndian(n, 2)
  }

  lemma U64RoundTrip(n: nat)
    requires n < TWO_64
    ensures FromBigEndian(U64(n)) == n
  {
    Pow256Values();
    BigEndianRoundTrip(n, 8);
  }

  lemma U16RoundTrip(n: nat)
    requires n < 0x1_0000
    ensures FromBigEndian(U16(n)) == n
  {
    Pow256Values();
    BigEndianRoundTrip(n, 2);
  }

  lemma FromU64(b: Bytes)
    requires |b| == 8
    ensures FromBigEndian(b) < TWO_64 && U64(FromBigEndian(b)) == b
  {
    Pow256Values();
    FromBigEndianRoundTrip(b);
  }

  lemma FromU16(b: Bytes)
    requires |b| == 2
    ensures FromBigEndian(b) < 0x1_0000 && U16(FromBigEndian(b)) == b
  {
    Pow256Values();
    FromBigEndianRoundTrip(b);
  }

  /** The signed part of a token: version, anchor, query, and a position behind its length. */
  ghost function PayloadOf(codec: Codec, scope: Bytes, c: DecodedCursor): Bytes
    requires codec.Valid()
  {
    [CURSOR_VERSION] + U64(c.anchor.height) + c.anchor.hash + codec.QueryHash(scope) + U16(|c.position|) + c.position
  }

  ghost function TokenOf(codec: Codec, scope: Bytes, c: DecodedCursor): string
    requires codec.Valid()
  {
    var payload := PayloadOf(codec, scope, c);
    CURSOR_PREFIX + codec.base64(payload + codec.Mac(payload))
  }

  /** The layout of a token, byte by byte. */
  lemma TokenLayout(codec: Codec, scope: Bytes, c: DecodedCursor) returns (payload: Bytes)
    requires codec.Valid() && c.Valid()
    ensures TokenOf(codec, scope, c) == "nf1." + codec.base64(payload + codec.hmac(payload)[..16])
    ensures |payload| == 59 + |c.position| && payload[0] == 1
    ensures FromBigEndian(payload[1..9]) == c.anchor.height && payload[9..41] == c.anchor.hash
    ensures payload[41..57] == codec.sha256(scope)[..16]
    ensures FromBigEndian(payload[57..59]) == |c.position| && payload[59..] == c.position
  {
    payload := PayloadOf(codec, scope, c);
    PayloadFields(codec, scope, c);
    U64RoundTrip(c.anchor.height);
    U16RoundTrip(|c.position|);
  }

  /** `CursorCodec::encode`; the source panics on a position longer than a u16 can count. */
  method Encode(codec: Codec, scope: Bytes, anchor: TipAnchor, position: Bytes) returns (token: string)
    requires codec.Valid() && anchor.Valid() && |position| < 0x1_0000
    ensures token == TokenOf(codec, scope, DecodedCursor(anchor, position))
  {
    var payload: Bytes := [];
    payload := payload + [CURSOR_VERSION];
    payload := payload + U64(anchor.height);
    payload := payload + anchor.hash;
    payload := payload + codec.QueryHash(scope);
    payload := payload + U16(|position|);
    payload := payload + position;
    assert payload == PayloadOf(codec, scope, DecodedCursor(anchor, position));
    var mac := codec.Mac(payload);
    payload := payload + mac;
    token := CURSOR_PREFIX + codec.base64(payload);
  }

  /** `CursorCodec::decode`. */
  function Decode(codec: Codec, token: string, scope: Bytes): Result<DecodedCursor, ApiError>
    requires forall b :: |codec.hmac(b)| == 32 && |codec.sha256(b)| == 32
  {
    if !(CURSOR_PREFIX <= token) then Err(BadRequest("invalid cursor prefix")) else
    match codec.unbase64(token[|CURSOR_PREFIX|..])
    case None => Err(BadRequest("invalid cursor encoding"))
    case Some(bytes) =>
      if |bytes| < FIXED_PAYLOAD_LEN + MAC_LEN then Err(BadRequest("truncated cursor")) else
      var payload, mac := bytes[..|bytes| - MAC_LEN], bytes[|bytes| - MAC_LEN..];
      if mac != codec.Mac(payload) then Err(BadRequest("invalid cursor signature"))
      else if payload[0] != CURSOR_VERSION then Err(BadRequest("unsupported cursor version"))
      else if payload[41..57] != codec.QueryHash(scope) then Err(BadRequest("cursor does not belong to this query"))
      else if |payload| != FIXED_PAYLOAD_LEN + FromBigEndian(payload[57..59]) then
        Err(BadRequest("invalid cursor position length"))
      else
        Ok(DecodedCursor(TipAnchor(FromBigEndian(payload[1..9]), payload[9..41]), payload[FIXED_PAYLOAD_LEN..]))
  }

  /** The fields of a payload can be read back. */
  lemma PayloadFields(codec: Codec, scope: Bytes, c: DecodedCursor)
    requires codec.Valid() && c.Valid()
    ensures var p := PayloadOf(codec, scope, c);
      && |p| == FIXED_PAYLOAD_LEN + |c.position| && p[0] == CURSOR_VERSION
      && p[1..9] == U64(c.anchor.height) && p[9..41] == c.anchor.hash && p[41..57] == codec.QueryHash(scope)
      && p[57..59] == U16(|c.position|) && p[59..] == c.position
  {
  }

  /** A token decodes to the cursor it was made from, under the scope it was made for. */
  lemma DecodeEncoded(codec: Codec, scope: Bytes, c: DecodedCursor)
    requires codec.Valid() && c.Valid()
    ensures Decode(codec, TokenOf(codec, scope, c), scope) == Ok(c)
  {
    var payload := PayloadOf(codec, scope, c);
    var token := TokenOf(codec, scope, c);
    TokenBytes(codec, token, payload);
    PayloadFields(codec, scope, c);
    U64RoundTrip(c.anchor.height);
    U16RoundTrip(|c.position|);
  }

  lemma TokenBytes(codec: Codec, token: string, payload: Bytes)
    requires codec.Valid() && token == CURSOR_PREFIX + codec.base64(payload + codec.Mac(payload))
    ensures CURSOR_PREFIX <= token && codec.unbase64(token[|CURSOR_PREFIX|..]) == Some(payload + codec.Mac(payload))
    ensures var b := payload + codec.Mac(payload); b[..|b| - MAC_LEN] == payload && b[|b| - MAC_LEN..] == codec.Mac(payload)
  {
    assert token[|CURSOR_PREFIX|..] == codec.base64(payload + codec.Mac(payload));
  }

  /** Only tokens that encode their own contents are accepted: what decodes is exactly what was signed for this scope. */
  lemma DecodeOnlyEncoded(codec: Codec, token: string, scope: Bytes)
    requires codec.Valid() && Decode(codec, token, scope).Ok?
    ensures var c := Decode(codec, token, scope).value; c.Valid() && token == TokenOf(codec, scope, c)
  {
    var c := Decode(codec, token, scope).value;
    var bytes := codec.unbase64(token[|CURSOR_PREFIX|..]).value;
    var payload := bytes[..|bytes| - MAC_LEN];
    Reassemble(codec, payload, scope, c);
    assert bytes == payload + bytes[|bytes| - MAC_LEN..];
    assert token == CURSOR_PREFIX + token[|CURSOR_PREFIX|..];
  }

  lemma Reassemble(codec: Codec, p: Bytes, scope: Bytes, c: DecodedCursor)
    requires codec.Valid() && |p| >= FIXED_PAYLOAD_LEN && p[0] == CURSOR_VERSION && p[41..57] == codec.QueryHash(scope)
    requires |p| == FIXED_PAYLOAD_LEN + FromBigEndian(p[57..59])
    requires c == DecodedCursor(TipAnchor(FromBigEndian(p[1..9]), p[9..41]), p[59..])
    ensures c.Valid() && p == PayloadOf(codec, scope, c)
  {
    FromU64(p[1..9]);
    FromU16(p[57..59]);
    Cut(p);
  }

  lemma Cut(p: Bytes)
    requires |p| >= FIXED_PAYLOAD_LEN
    ensures p == [p[0]] + p[1..9] + p[9..41] + p[41..57] + p[57..59] + p[59..]
  {
  }

  /** A token of one query is refused by another, with the query's own error, unless their hashes collide. */
  lemma ForeignScope(codec: Codec, a: seq<Bytes>, o: Order, b: seq<Bytes>, p: Order, c: DecodedCursor)
    requires codec.Valid() && c.Valid()
    requires forall i :: 0 <= i < |a| ==> |a[i]| < TWO_32
    requires forall i :: 0 <= i < |b| ==> |b[i]| < TWO_32
    requires codec.QueryHash(ScopeOf(a, o)) == codec.QueryHash(ScopeOf(b, p)) ==> ScopeOf(a, o) == ScopeOf(b, p)
    ensures Decode(codec, TokenOf(codec, ScopeOf(a, o), c), ScopeOf(b, p)) ==
      if a == b && o == p then Ok(c) else Err(BadRequest("cursor does not belong to this query"))
  {
    ScopeInjective(a, o, b, p);
    if a == b && o == p {
      DecodeEncoded(codec, ScopeOf(a, o), c);
    } else {
      TokenBytes(codec, TokenOf(codec, ScopeOf(a, o), c), PayloadOf(codec, ScopeOf(a, o), c));
      PayloadFields(codec, ScopeOf(a, o), c);
    }
  }
}
