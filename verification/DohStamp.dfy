/** DNS-over-HTTPS stamps (internal/services/doh.go), as the DNS Stamps specification lays them out. */
module DohStamp {
  import opened Text
  import opened Base64Url

  type Bytes = seq<byte>
  datatype Part = Part(payload: Bytes, next: nat) | Truncated
  datatype Endpoint = Endpoint(host: Bytes, path: Bytes) | Invalid

  const SLASH: byte := 47

  // ---------- Writing ----------

  /** writeLP: a length byte and at most 127 bytes. */
  function Clip(p: Bytes): Bytes { if |p| > 127 then p[..127] else p }

  function LP(p: Bytes): Bytes { [|Clip(p)|] + Clip(p) }

  /** A vlp list: every entry but the last has the high bit of its length set. */
  function VLP(entries: seq<Bytes>): Bytes
    requires |entries| >= 1 && forall e :: e in entries ==> |e| <= 127
  {
    if |entries| == 1 then [|entries[0]|] + entries[0]
    else [|entries[0]| + 128] + entries[0] + VLP(entries[1..])
  }

  function EncodeStamp(props: Bytes, addr: Bytes, hashes: seq<Bytes>, host: Bytes, path: Bytes, trailing: Bytes): Bytes
    requires |props| == 8 && |hashes| >= 1 && forall e :: e in hashes ==> |e| <= 127
  {
    [2] + props + (LP(addr) + (VLP(hashes) + (LP(host) + (LP(path) + trailing))))
  }

  // ---------- Reading ----------

  function ReadLP(raw: Bytes, cursor: nat): (r: Part)
    ensures r.Part? ==> cursor < r.next <= |raw| && r.payload == raw[cursor + 1..r.next] && |r.payload| < 128
  {
    if cursor >= |raw| then Truncated else
      var n := raw[cursor] % 128;
      if cursor + 1 + n > |raw| then Truncated else Part(raw[cursor + 1..cursor + 1 + n], cursor + 1 + n)
  }

  /** Where a vlp list that starts at `cursor` ends. */
  function AfterVLP(raw: Bytes, cursor: nat): (r: Option<nat>)
    ensures r.Some? ==> cursor < r.value <= |raw|
    decreases |raw| - cursor
  {
    var e := ReadLP(raw, cursor);
    if e.Truncated? then None
    else if raw[cursor] >= 128 then AfterVLP(raw, e.next)
    else Some(e.next)
  }

  /** skipVLP: the cursor stays inside the buffer and every round moves it on. */
  method SkipVLP(raw: Bytes, start: nat) returns (r: Option<nat>)
    ensures r == AfterVLP(raw, start)
  {
    var cursor := start;
    while true
      invariant AfterVLP(raw, start) == AfterVLP(raw, cursor)
      decreases |raw| - cursor
    {
      if cursor >= |raw| { return None; }
      var more := raw[cursor] >= 128;
      var n := raw[cursor] % 128;
      cursor := cursor + 1;
      if cursor + n > |raw| { return None; }
      cursor := cursor + n;
      if !more { return Some(cursor); }
    }
  }

  function Slashed(p: Bytes): Bytes { if p != [] && p[0] == SLASH then p else [SLASH] + p }

  function DecodeStamp(raw: Bytes): Endpoint {
    if |raw| < 9 then Invalid else
      var addr := ReadLP(raw, 9);
      if addr.Truncated? then Invalid else
        var hashes := AfterVLP(raw, addr.next);
        if hashes.None? then Invalid else
          var host := ReadLP(raw, hashes.value);
          if host.Truncated? then Invalid else
            var path := ReadLP(raw, host.next);
            if path.Truncated? then Invalid else Endpoint(host.payload, Slashed(path.payload))
  }

  method DecodeDoHStamp(raw: Bytes) returns (r: Endpoint)
    ensures r == DecodeStamp(raw)
  {
    var cursor := 1;
    if |raw| < cursor + 8 { return Invalid; }
    cursor := cursor + 8;
    var addr := ReadLP(raw, cursor);
    if addr.Truncated? { return Invalid; }
    cursor := addr.next;
    var after := SkipVLP(raw, cursor);
    if after.None? { return Invalid; }
    cursor := after.value;
    var host := ReadLP(raw, cursor);
    if host.Truncated? { return Invalid; }
    cursor := host.next;
    var path := ReadLP(raw, cursor);
    if path.Truncated? { return Invalid; }
    var p := path.payload;
    if !(p != [] && p[0] == SLASH) {
      p := [SLASH] + p;
    }
    return Endpoint(host.payload, p);
  }

  // ---------- Round trip ----------

  lemma ReadsEntry(pre: Bytes, n: byte, p: Bytes, post: Bytes)
    requires n % 128 == |p|
    ensures var raw := pre + ([n] + p + post);
            raw[|pre|] == n && ReadLP(raw, |pre|) == Part(p, |pre| + 1 + |p|)
  {
    var raw := pre + ([n] + p + post);
    assert raw[|pre|] == n;
    assert raw[|pre| + 1..|pre| + 1 + |p|] == p;
  }

  lemma ReadsLP(pre: Bytes, p: Bytes, post: Bytes)
    ensures ReadLP(pre + (LP(p) + post), |pre|) == Part(Clip(p), |pre + LP(p)|)
  {
    ReadsEntry(pre, |Clip(p)|, Clip(p), post);
  }

  lemma AfterEntry(raw: Bytes, cursor: nat, next: nat)
    requires cursor < |raw| && ReadLP(raw, cursor).Part? && ReadLP(raw, cursor).next == next
    ensures AfterVLP(raw, cursor) == if raw[cursor] >= 128 then AfterVLP(raw, next) else Some(next)
  {}

  lemma {:induction false} SkipsVLP(pre: Bytes, entries: seq<Bytes>, post: Bytes)
    requires |entries| >= 1 && forall e :: e in entries ==> |e| <= 127
    ensures AfterVLP(pre + (VLP(entries) + post), |pre|) == Some(|pre + VLP(entries)|)
    decreases |entries|
  {
    hide ReadLP, AfterVLP;
    var e := entries[0];
    if |entries| == 1 {
      ReadsEntry(pre, |e|, e, post);
      AfterEntry(pre + (VLP(entries) + post), |pre|, |pre| + 1 + |e|);
    } else {
      var head, tail := [|e| + 128] + e, VLP(entries[1..]);
      ReadsEntry(pre, |e| + 128, e, tail + post);
      Regroup(head, tail, post);
      Regroup(pre, head, tail + post);
      SkipsVLP(pre + head, entries[1..], post);
      AfterEntry(pre + (VLP(entries) + post), |pre|, |pre + head|);
    }
  }

  /** Decoding any encoded stamp, whatever its address, hashes and trailing bytes, gives the host and the
      path cut to 127 bytes each, the path led by a slash. */
  lemma DecodesEncoded(props: Bytes, addr: Bytes, hashes: seq<Bytes>, host: Bytes, path: Bytes, trailing: Bytes)
    requires |props| == 8 && |hashes| >= 1 && forall e :: e in hashes ==> |e| <= 127
    ensures DecodeStamp(EncodeStamp(props, addr, hashes, host, path, trailing)) == Endpoint(Clip(host), Slashed(Clip(path)))
  {
    hide LP, VLP, ReadLP, AfterVLP, Clip;
    var a, r3 := [2] + props, LP(path) + trailing;
    var r2 := LP(host) + r3;
    var r1 := VLP(hashes) + r2;
    var b := a + LP(addr);
    var c := b + VLP(hashes);
    ReadsLP(a, addr, r1);
    Regroup(a, LP(addr), r1);
    SkipsVLP(b, hashes, r2);
    Regroup(b, VLP(hashes), r2);
    ReadsLP(c, host, r3);
    Regroup(c, LP(host), r3);
    ReadsLP(c + LP(host), path, trailing);
  }

  /** The endpoint survives exactly when host and path fit in 127 bytes and the path is slash-led. */
  lemma StampRoundTripIff(props: Bytes, addr: Bytes, hashes: seq<Bytes>, host: Bytes, path: Bytes, trailing: Bytes)
    requires |props| == 8 && |hashes| >= 1 && forall e :: e in hashes ==> |e| <= 127
    ensures DecodeStamp(EncodeStamp(props, addr, hashes, host, path, trailing)) == Endpoint(host, path)
            <==> |host| <= 127 && |path| <= 127 && path != [] && path[0] == SLASH
  {
    DecodesEncoded(props, addr, hashes, host, path, trailing);
    if Endpoint(Clip(host), Slashed(Clip(path))) == Endpoint(host, path) {
      assert |Clip(host)| == |host| && |Slashed(Clip(path))| == |path|;
      assert Slashed(Clip(path))[0] == SLASH;
    }
  }

  /** A host of 128 letters comes back one short, and a bare path with a slash it did not have. */
  lemma LongHostBarePath()
    ensures var host, path, props: Bytes := seq(128, _ => 97), [100], [0, 0, 0, 0, 0, 0, 0, 0];
            DecodeStamp(EncodeStamp(props, [], [[]], host, path, [])) == Endpoint(host[..127], [SLASH, 100])
  {
    var host, path, props: Bytes := seq(128, _ => 97), [100], [0, 0, 0, 0, 0, 0, 0, 0];
    DecodesEncoded(props, [], [[]], host, path, []);
    assert Clip(path) == path && [SLASH] + path == [SLASH, 100];
  }

  // ---------- Exactly which bytes decode ----------

  /** A length byte, whose high bit does not count, and that many bytes. */
  predicate IsField(b: Bytes) { b != [] && |b| == 1 + b[0] % 128 }

  /** Fields one after the other, all but the last with the high bit set. */
  predicate IsList(b: Bytes) {
    b != [] && 1 + b[0] % 128 <= |b| && if b[0] >= 128 then IsList(b[1 + b[0] % 128..]) else IsField(b)
  }

  /** After nine bytes: an address up to a, hashes up to b, a host up to c, a path up to d, and anything. */
  predicate Layout(raw: Bytes, a: int, b: int, c: int, d: int) {
    9 < a < b < c < d <= |raw| && IsField(raw[9..a]) && IsList(raw[a..b]) && IsField(raw[b..c]) && IsField(raw[c..d])
  }

  lemma ReadsField(raw: Bytes, cursor: nat, e: nat)
    ensures ReadLP(raw, cursor).Part? && ReadLP(raw, cursor).next == e <==> cursor < e <= |raw| && IsField(raw[cursor..e])
  {
    if cursor < e <= |raw| { assert raw[cursor..e][0] == raw[cursor]; }
  }

  lemma {:induction false} ReadsList(raw: Bytes, cursor: nat, e: nat)
    ensures AfterVLP(raw, cursor) == Some(e) <==> cursor < e <= |raw| && IsList(raw[cursor..e])
    decreases |raw| - cursor
  {
    if cursor < |raw| {
      var n := 1 + raw[cursor] % 128;
      if cursor < e <= |raw| { assert raw[cursor..e][0] == raw[cursor]; }
      if cursor + n <= |raw| && raw[cursor] >= 128 {
        ReadsList(raw, cursor + n, e);
        if cursor + n <= e <= |raw| { assert raw[cursor..e][n..] == raw[cursor + n..e]; }
      }
    }
  }

  /** The decoder accepts exactly the stamps of this layout, and returns their host and path. */
  lemma DecodesIff(raw: Bytes, host: Bytes, path: Bytes)
    ensures DecodeStamp(raw) == Endpoint(host, path) <==>
            exists a, b, c, d :: Layout(raw, a, b, c, d) && host == raw[b + 1..c] && path == Slashed(raw[c + 1..d])
  {
    hide ReadLP, AfterVLP, IsField, IsList, Slashed;
    if DecodeStamp(raw) == Endpoint(host, path) {
      var addr := ReadLP(raw, 9);
      var list := AfterVLP(raw, addr.next);
      var h := ReadLP(raw, list.value);
      var p := ReadLP(raw, h.next);
      ReadsField(raw, 9, addr.next);
      ReadsList(raw, addr.next, list.value);
      ReadsField(raw, list.value, h.next);
      ReadsField(raw, h.next, p.next);
      assert Layout(raw, addr.next, list.value, h.next, p.next);
    }
    if a, b, c, d :| Layout(raw, a, b, c, d) && host == raw[b + 1..c] && path == Slashed(raw[c + 1..d]) {
      ReadsField(raw, 9, a);
      ReadsList(raw, a, b);
      ReadsField(raw, b, c);
      ReadsField(raw, c, d);
    }
  }

  /** The encoder writes the protocol number, the properties and the address in front. */
  lemma EncodedHead(props: Bytes, addr: Bytes, hashes: seq<Bytes>, host: Bytes, path: Bytes, trailing: Bytes)
    requires |props| == 8 && |hashes| >= 1 && forall e :: e in hashes ==> |e| <= 127
    ensures var raw, n := EncodeStamp(props, addr, hashes, host, path, trailing), if |addr| > 127 then 127 else |addr|;
            |raw| > 9 + n && raw[0] == 2 && raw[1..9] == props && raw[9] == n && raw[10..10 + n] == addr[..n]
  {
    hide VLP;
    var raw := EncodeStamp(props, addr, hashes, host, path, trailing);
    var rest := VLP(hashes) + (LP(host) + (LP(path) + trailing));
    assert raw == [2] + props + ([|Clip(addr)|] + Clip(addr) + rest);
    assert addr[..|addr|] == addr;
  }

  // ---------- Through base64url ----------

  /** httpsURLToStamp on a parsed URL: properties 0, one empty hash, no bootstrap addresses; an empty path
      means /dns-query. */
  function UrlToStamp(addr: Bytes, host: Bytes, path: Bytes): string {
    var props: Bytes := [0, 0, 0, 0, 0, 0, 0, 0];
    "sdns://" + Encode(EncodeStamp(props, addr, [[]], host, if path == [] then DNS_QUERY else path, []))
  }

  const DNS_QUERY: Bytes := [47, 100, 110, 115, 45, 113, 117, 101, 114, 121]

  function TrimRight(s: string, c: char): string {
    if s != [] && s[|s| - 1] == c then TrimRight(s[..|s| - 1], c) else s
  }

  function TrimPrefix(s: string, p: string): string { if |p| <= |s| && s[..|p|] == p then s[|p|..] else s }

  function ParseEndpoint(spec: string): Endpoint {
    var raw := Decode(TrimRight(TrimPrefix(spec, "sdns://"), '='));
    if raw.None? then Invalid else DecodeStamp(raw.value)
  }

  /** A stamp made from a URL parses back to its host and path, clipped and slash-led as above. */
  lemma UrlParses(addr: Bytes, host: Bytes, path: Bytes)
    ensures ParseEndpoint(UrlToStamp(addr, host, path)) == Endpoint(Clip(host), Slashed(Clip(if path == [] then DNS_QUERY else path)))
  {
    var props: Bytes := [0, 0, 0, 0, 0, 0, 0, 0];
    var p := if path == [] then DNS_QUERY else path;
    var raw := EncodeStamp(props, addr, [[]], host, p, []);
    var spec := UrlToStamp(addr, host, path);
    assert spec[..7] == "sdns://" && spec[7..] == Encode(raw);
    EncodeAvoids(raw, '=');
    assert TrimRight(Encode(raw), '=') == Encode(raw);
    RoundTrip(raw);
    DecodesEncoded(props, addr, [[]], host, p, []);
  }

  /** So it keeps them exactly when both fit and the path is empty or slash-led, as url.Parse leaves it. */
  lemma UrlRoundTrip(addr: Bytes, host: Bytes, path: Bytes)
    ensures ParseEndpoint(UrlToStamp(addr, host, path)) == Endpoint(host, if path == [] then DNS_QUERY else path)
            <==> |host| <= 127 && |path| <= 127 && (path != [] ==> path[0] == SLASH)
  {
    hide ParseEndpoint, UrlToStamp;
    UrlParses(addr, host, path);
    var p := if path == [] then DNS_QUERY else path;
    if Endpoint(Clip(host), Slashed(Clip(p))) == Endpoint(host, p) {
      assert |Clip(host)| == |host| && |Slashed(Clip(p))| == |p|;
      assert Slashed(Clip(p))[0] == SLASH;
    }
  }
}
