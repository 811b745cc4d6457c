/** signToken and verifyToken of internal/services/vpn_s2s.go. The MAC is any function of key and body. */
module SignedToken {
  import opened Text
  import opened Base64Url

  type Mac = (seq<byte>, seq<byte>) -> seq<byte>

  datatype Verified = Body(body: seq<byte>) | Malformed | BadSignature

  function Sign(mac: Mac, key: seq<byte>, body: seq<byte>): string { Encode(body) + "." + Encode(mac(key, body)) }

  function Verify(mac: Mac, key: seq<byte>, token: string): Verified {
    var parts := Split(TrimSpace(token), '.');
    if |parts| != 2 then Malformed else
      var body, sig := Decode(parts[0]), Decode(parts[1]);
      if body.None? || sig.None? then Malformed
      else if mac(key, body.value) != sig.value then BadSignature
      else Body(body.value)
  }

  /** A token verifies under another key exactly when that key gives the body the same MAC, and then
      to the identical body; with a shared secret it always does. */
  lemma VerifiesIff(mac: Mac, signer: seq<byte>, verifier: seq<byte>, body: seq<byte>)
    ensures Verify(mac, verifier, Sign(mac, signer, body)) ==
            if mac(verifier, body) == mac(signer, body) then Body(body) else BadSignature
  {
    var sig := mac(signer, body);
    var a, b, token := Encode(body), Encode(sig), Sign(mac, signer, body);
    EncodeAvoids(body, '.');
    EncodeAvoids(sig, '.');
    forall c | c in token ensures !IsSpace(c) {
      assert c in a || c == '.' || c in b;
      if IsSpace(c) {
        EncodeAvoids(body, c);
        EncodeAvoids(sig, c);
      }
    }
    NothingTrimmed(token);
    SplitAt(a, '.', b);
    SplitWhole(b, '.');
    assert token == a + ['.'] + b;
    RoundTrip(body);
    RoundTrip(sig);
  }

  /** One separator, a readable body before it, and after it the MAC of that very body. */
  ghost predicate Signs(mac: Mac, key: seq<byte>, text: string, body: seq<byte>) {
    exists x, y :: text == x + ['.'] + y && '.' !in x && '.' !in y && Decode(x) == Some(body) && Decode(y) == Some(mac(key, body))
  }

  /** Exactly which texts verify, whoever wrote them. */
  lemma VerifiedIff(mac: Mac, key: seq<byte>, token: string, body: seq<byte>)
    ensures Verify(mac, key, token) == Body(body) <==> Signs(mac, key, TrimSpace(token), body)
  {
    hide Decode, Split, TrimSpace;
    var text := TrimSpace(token);
    var parts := Split(text, '.');
    TwoParts(text, '.');
    if |parts| == 2 { assert parts[0] in parts && parts[1] in parts; }
    if Signs(mac, key, text, body) {
      var x, y :| text == x + ['.'] + y && '.' !in x && '.' !in y && Decode(x) == Some(body) && Decode(y) == Some(mac(key, body));
      SplitAt(x, '.', y);
      SplitWhole(y, '.');
      assert parts == [x, y];
    }
  }
}
