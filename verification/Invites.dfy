/** The site-to-site invite protocol of internal/services/vpn_s2s.go: pending peers, tunnel addresses,
    invite and ack tokens, and their life cycle. Keys, clocks, file saves, the MAC and the JSON codec are inputs. */
module Invites {
  import opened Text
  import opened Cidrs
  import Base64Url
  import SignedToken

  datatype Peer = Peer(
    name: string, publicKey: string, presharedKey: string, allowedIPs: string, endpoint: string,
    remoteSubnets: seq<string>, pending: bool, expires: Option<int>)

  // ---------- Tokens ----------

  const SCHEMA := 1
  const INVITE := "invite"
  const ACK := "ack"
  const SECOND := 1_000_000_000
  const TTL := 3600 * SECOND

  /** The JSON object inside a token. An ack leaves the fields after publicKey out. */
  datatype Payload = Payload(
    version: int, kind: string, name: string, publicKey: string, createdAt: int,
    endpoint: string, presharedKey: string, tunnelIP: string, remoteSubnets: seq<string>, expiresAt: Option<int>)

  type Bytes = seq<Base64Url.byte>

  /** The MAC and the JSON codec that both routers run; either may be any function. */
  datatype Codec = Codec(mac: SignedToken.Mac, marshal: Payload -> Bytes, unmarshal: Bytes -> Option<Payload>)

  /** json.Unmarshal reads back what json.Marshal wrote. */
  ghost predicate Faithful(c: Codec) { forall p :: c.unmarshal(c.marshal(p)) == Some(p) }

  function Signed(c: Codec, key: Bytes, p: Payload): string { SignedToken.Sign(c.mac, key, c.marshal(p)) }

  datatype Parse = Parsed(payload: Payload) | Malformed | WrongSignature | WrongSchema | WrongKind | Expired

  /** verifyToken, json.Unmarshal and the checks that both kinds share. */
  function Open(c: Codec, key: Bytes, token: string, kind: string): Parse {
    var body := SignedToken.Verify(c.mac, key, token);
    if body.BadSignature? then WrongSignature
    else if body.Malformed? then Malformed
    else
      var p := c.unmarshal(body.body);
      if p.None? then Malformed
      else if p.value.version != SCHEMA then WrongSchema
      else if p.value.kind != kind then WrongKind
      else Parsed(p.value)
  }

  function ParseInvite(c: Codec, key: Bytes, token: string, now: int): Parse {
    var r := Open(c, key, token, INVITE);
    if r.Parsed? && r.payload.expiresAt.Some? && now > r.payload.expiresAt.value then Expired else r
  }

  function ParseAck(c: Codec, key: Bytes, token: string): Parse { Open(c, key, token, ACK) }

  /** A signed payload opens, under a key with the same MAC for it, to itself, and as its own kind only. */
  lemma OpensSigned(c: Codec, signer: Bytes, key: Bytes, p: Payload, kind: string)
    requires Faithful(c)
    ensures Open(c, key, Signed(c, signer, p), kind) ==
            if c.mac(key, c.marshal(p)) != c.mac(signer, c.marshal(p)) then WrongSignature
            else if p.version != SCHEMA then WrongSchema
            else if p.kind != kind then WrongKind
            else Parsed(p)
  {
    SignedToken.VerifiesIff(c.mac, signer, key, c.marshal(p));
  }

  // ---------- Tunnel addresses ----------

  const SERVER := "10.10.11.1"

  function Candidate(n: nat): string { "10.10.11." + Dec(n) }

  /** The address nextTunnelIP reads out of an AllowedIPs list. */
  function Host(allowed: string): string { TrimSpace(Before(TrimSpace(Before(allowed, '/')), ',')) }

  function Join(parts: seq<string>): string {
    if parts == [] then "" else if |parts| == 1 then parts[0] else parts[0] + ", " + Join(parts[1..])
  }

  function Allowed(tunnel: string, subnets: seq<string>): string {
    if |subnets| > 0 then tunnel + ", " + Join(subnets) else tunnel
  }

  function TunnelIP(n: nat): string { Candidate(n) + "/32" }

  ghost predicate Free(ps: seq<Peer>, n: nat) {
    Candidate(n) != SERVER && forall i :: 0 <= i < |ps| ==> Host(ps[i].allowedIPs) != Candidate(n)
  }

  /** The lowest free host from `n` on. */
  ghost function LowestFree(ps: seq<Peer>, n: nat): (r: Option<nat>)
    ensures r.Some? ==> n <= r.value < 255 && Free(ps, r.value) && forall m: nat :: n <= m < r.value ==> !Free(ps, m)
    ensures r.None? ==> forall m: nat :: n <= m < 255 ==> !Free(ps, m)
    decreases 255 - n
  {
    if n >= 255 then None else if Free(ps, n) then Some(n) else LowestFree(ps, n + 1)
  }

  lemma CandidateText(n: nat, c: char)
    requires c == '/' || c == ',' || IsSpace(c)
    ensures c !in Candidate(n)
  {
    assert forall d :: d in "10.10.11." ==> IsDigit(d) || d == '.';
  }

  /** The address of a fresh AllowedIPs list is the candidate it was made from. */
  lemma HostOfAllowed(n: nat, subnets: seq<string>)
    ensures Host(Allowed(TunnelIP(n), subnets)) == Candidate(n)
  {
    var c, rest := Candidate(n), "32" + (if |subnets| > 0 then ", " + Join(subnets) else "");
    assert Allowed(TunnelIP(n), subnets) == c + ['/'] + rest;
    CandidateText(n, '/');
    CandidateText(n, ',');
    SplitAt(c, '/', rest);
    SplitWhole(c, ',');
    forall d | d in c ensures !IsSpace(d) { if IsSpace(d) { CandidateText(n, d); } }
    NothingTrimmed(c);
  }

  // ---------- The operations on a peer list ----------

  /** What a router's configuration contributes. */
  datatype Site = Site(codec: Codec, key: Bytes, publicKey: string, locals: seq<string>, parse: CidrParser)

  datatype Request = Request(name: string, endpoint: string, expected: seq<string>, psk: Option<string>, now: int, saved: bool)

  function Find(ps: seq<Peer>, name: string): (i: nat)
    ensures i <= |ps| && (i < |ps| ==> ps[i].name == name)
    ensures forall j :: 0 <= j < i ==> ps[j].name != name
  {
    if ps == [] || ps[0].name == name then 0 else 1 + Find(ps[1..], name)
  }

  ghost predicate Accepts(ps: seq<Peer>, site: Site, q: Request) {
    && q.name != "" && q.endpoint != "" && !Conflict(site.parse, q.expected, site.locals)
    && q.psk.Some? && LowestFree(ps, 2).Some? && Find(ps, q.name) == |ps|
  }

  function Expiry(q: Request): int { q.now - q.now % SECOND + TTL }

  ghost function PendingPeer(ps: seq<Peer>, site: Site, q: Request): Peer
    requires Accepts(ps, site, q)
  {
    Peer(q.name, "", q.psk.value, Allowed(TunnelIP(LowestFree(ps, 2).value), q.expected), "", q.expected, true, Some(Expiry(q)))
  }

  /** CreateS2SInvite. The pending peer stays in memory even if saving fails afterwards. */
  ghost function Created(ps: seq<Peer>, site: Site, q: Request): seq<Peer> {
    if Accepts(ps, site, q) then ps + [PendingPeer(ps, site, q)] else ps
  }

  ghost function InviteFor(ps: seq<Peer>, site: Site, q: Request): Payload
    requires Accepts(ps, site, q)
  {
    Payload(SCHEMA, INVITE, q.name, site.publicKey, q.now - q.now % SECOND, q.endpoint, q.psk.value,
            TunnelIP(LowestFree(ps, 2).value), site.locals, Some(Expiry(q)))
  }

  /** ConsumeInvite: the originator becomes a finished peer under the invite's own address. */
  ghost predicate Joins(ps: seq<Peer>, site: Site, token: string, now: int) {
    var inv := ParseInvite(site.codec, site.key, token, now);
    inv.Parsed? && !Conflict(site.parse, inv.payload.remoteSubnets, site.locals) && Find(ps, inv.payload.name) == |ps|
  }

  function JoinedPeer(p: Payload): Peer {
    Peer(p.name, p.publicKey, p.presharedKey, Allowed(p.tunnelIP, p.remoteSubnets), p.endpoint, p.remoteSubnets, false, None)
  }

  function AckFor(p: Payload, ourKey: string, now: int): Payload {
    Payload(SCHEMA, ACK, p.name, ourKey, now, "", "", "", [], None)
  }

  /** FinalizeInvite. */
  predicate Finalizes(ps: seq<Peer>, site: Site, name: string, token: string) {
    var ack := ParseAck(site.codec, site.key, token);
    ack.Parsed? && ack.payload.name == name && Find(ps, name) < |ps| && ps[Find(ps, name)].pending
  }

  function WithKey(ps: seq<Peer>, i: nat, publicKey: string): seq<Peer>
    requires i < |ps|
  {
    ps[i := ps[i].(publicKey := publicKey, pending := false, expires := None)]
  }

  function Finalized(ps: seq<Peer>, site: Site, name: string, token: string): seq<Peer> {
    if Finalizes(ps, site, name, token)
    then WithKey(ps, Find(ps, name), ParseAck(site.codec, site.key, token).payload.publicKey) else ps
  }

  function Cancelled(ps: seq<Peer>, name: string): seq<Peer> {
    var i := Find(ps, name);
    if i < |ps| && ps[i].pending then Without(ps, i) else ps
  }

  function Removed(ps: seq<Peer>, name: string): seq<Peer> {
    var i := Find(ps, name);
    if i < |ps| then Without(ps, i) else ps
  }

  predicate Stale(p: Peer, now: int) { p.pending && p.expires.Some? && now > p.expires.value }

  function Unexpired(ps: seq<Peer>, now: int): seq<Peer> {
    if ps == [] then [] else if Stale(ps[0], now) then Unexpired(ps[1..], now) else [ps[0]] + Unexpired(ps[1..], now)
  }

  /** GCExpiredInvites in place: kept peers are written back into the front of the same array. */
  method CollectExpired(a: array<Peer>, now: int) returns (kept: nat, reaped: nat)
    modifies a
    ensures kept + reaped == a.Length
    ensures a[..kept] == Unexpired(old(a[..]), now)
  {
    kept, reaped := 0, 0;
    for i := 0 to a.Length
      invariant kept + reaped == i
      invariant a[..kept] == Unexpired(old(a[..])[..i], now)
      invariant forall j :: i <= j < a.Length ==> a[j] == old(a[..])[j]
    {
      var p := a[i];
      UnexpiredSnoc(old(a[..])[..i], p, now);
      assert old(a[..])[..i + 1] == old(a[..])[..i] + [p];
      if p.pending && p.expires.Some? && now > p.expires.value {
        reaped := reaped + 1;
        continue;
      }
      a[kept] := p;
      kept := kept + 1;
    }
    assert old(a[..])[..a.Length] == old(a[..]);
  }

  lemma {:induction false} UnexpiredSnoc(ps: seq<Peer>, p: Peer, now: int)
    ensures Unexpired(ps + [p], now) == Unexpired(ps, now) + (if Stale(p, now) then [] else [p])
  {
    if ps == [] {
      assert (ps + [p])[1..] == [];
    } else {
      assert (ps + [p])[1..] == ps[1..] + [p];
      UnexpiredSnoc(ps[1..], p, now);
    }
  }

  datatype CreateResult = Issued(token: string, peer: Peer) | Refused | Unsaved
  datatype JoinResult = Joined(token: string, ourKey: string, joined: Peer) | NotJoined | JoinUnsaved
  datatype PeerResult = Done | BadAck | NoSuchPeer | NotPending | NotSaved

  datatype Iface = Iface(role: string, address: string)

  predicate Announced(i: Iface) { i.role == "lan" && i.address != "" }

  /** The subnets of the LAN interfaces, then the tunnel server's own. */
  function LocalSubnets(ifaces: seq<Iface>, server: string): seq<string> {
    if ifaces == [] then (if server != "" then [AddressToSubnet(server)] else [])
    else (if Announced(ifaces[0]) then [AddressToSubnet(ifaces[0].address)] else []) + LocalSubnets(ifaces[1..], server)
  }

  method ReadLocalSubnets(ifaces: seq<Iface>, server: string) returns (locals: seq<string>)
    ensures locals == LocalSubnets(ifaces, server)
  {
    hide AddressToSubnet, LocalSubnets;
    locals := [];
    assert ifaces[0..] == ifaces;
    for i := 0 to |ifaces|
      invariant locals + LocalSubnets(ifaces[i..], server) == LocalSubnets(ifaces, server)
    {
      LocalsFrom(ifaces, server, i);
      if ifaces[i].role != "lan" || ifaces[i].address == "" { continue; }
      var subnet := AddressToSubnet(ifaces[i].address);
      Regroup(locals, [subnet], LocalSubnets(ifaces[i + 1..], server));
      locals := locals + [subnet];
    }
    assert ifaces[|ifaces|..] == [];
    LocalsEnd(server);
    if server != "" {
      locals := locals + [AddressToSubnet(server)];
    }
  }

  lemma LocalsEnd(server: string)
    ensures LocalSubnets([], server) == if server != "" then [AddressToSubnet(server)] else []
  {}

  lemma LocalsFrom(ifaces: seq<Iface>, server: string, i: nat)
    requires i < |ifaces|
    ensures LocalSubnets(ifaces[i..], server) ==
            (if Announced(ifaces[i]) then [AddressToSubnet(ifaces[i].address)] else []) + LocalSubnets(ifaces[i + 1..], server)
  {
    assert ifaces[i..][1..] == ifaces[i + 1..];
  }

  class VpnService {
    var peers: seq<Peer>
    const site: Site

    constructor (peers: seq<Peer>, codec: Codec, key: Bytes, publicKey: string, parse: CidrParser, ifaces: seq<Iface>, server: string)
      ensures this.peers == peers && site == Site(codec, key, publicKey, LocalSubnets(ifaces, server), parse)
    {
      var locals := ReadLocalSubnets(ifaces, server);
      this.peers, site := peers, Site(codec, key, publicKey, locals, parse);
    }

    /** The lowest host in 2..254 that no peer uses; none only when all are used. */
    method NextTunnelIP() returns (r: Option<nat>)
      ensures r == LowestFree(peers, 2)
    {
      var used: set<string> := {SERVER};
      for i := 0 to |peers|
        invariant forall s :: s in used <==> s == SERVER || exists j :: 0 <= j < i && Host(peers[j].allowedIPs) == s
      {
        used := used + {Host(peers[i].allowedIPs)};
      }
      var n := 2;
      while n < 255
        invariant 2 <= n <= 255 && LowestFree(peers, 2) == LowestFree(peers, n)
      {
        var candidate := Candidate(n);
        if candidate !in used { return Some(n); }
        n := n + 1;
      }
      return None;
    }

    method CreateS2SInvite(q: Request) returns (r: CreateResult)
      modifies this
      ensures peers == Created(old(peers), site, q)
      ensures r.Refused? <==> !Accepts(old(peers), site, q)
      ensures r.Issued? ==> q.saved && r == Issued(Signed(site.codec, site.key, InviteFor(old(peers), site, q)), PendingPeer(old(peers), site, q))
      ensures r.Unsaved? ==> !q.saved
    {
      hide LowestFree, Free, Host, Allowed, Candidate, TunnelIP, Conflict;
      if q.name == "" { return Refused; }
      if q.endpoint == "" { return Refused; }
      var conflict := SubnetsConflict(site.parse, q.expected, site.locals);
      if conflict.Some? { return Refused; }
      if q.psk.None? { return Refused; }
      var ip := NextTunnelIP();
      if ip.None? { return Refused; }
      var tunnel := TunnelIP(ip.value);
      var now := q.now - q.now % SECOND;
      var pending := Peer(q.name, "", q.psk.value, Allowed(tunnel, q.expected), "", q.expected, true, Some(now + TTL));
      for i := 0 to |peers|
        invariant i <= Find(peers, q.name) && peers == old(peers)
      {
        if peers[i].name == q.name { return Refused; }
        FindPast(peers, q.name, i);
      }
      peers := peers + [pending];
      if !q.saved { return Unsaved; }
      var inv := Payload(SCHEMA, INVITE, q.name, site.publicKey, now, q.endpoint, q.psk.value, tunnel, site.locals, Some(now + TTL));
      return Issued(Signed(site.codec, site.key, inv), pending);
    }

    method ConsumeInvite(token: string, now: int, generated: Option<string>, saved: bool) returns (r: JoinResult)
      modifies this
      ensures r.NotJoined? <==> !(Joins(old(peers), site, token, now) && generated.Some?)
      ensures r.NotJoined? ==> peers == old(peers)
      ensures !r.NotJoined? ==> peers == old(peers) + [JoinedPeer(ParseInvite(site.codec, site.key, token, now).payload)]
      ensures r.Joined? ==>
        && saved && var inv := ParseInvite(site.codec, site.key, token, now).payload;
           r == Joined(Signed(site.codec, site.key, AckFor(inv, generated.value, now - now % SECOND)), generated.value, JoinedPeer(inv))
      ensures r.JoinUnsaved? ==> !saved
    {
      hide Conflict;
      var inv := ParseInvite(site.codec, site.key, token, now);
      if !inv.Parsed? { return NotJoined; }
      var conflict := SubnetsConflict(site.parse, inv.payload.remoteSubnets, site.locals);
      if conflict.Some? { return NotJoined; }
      if generated.None? { return NotJoined; }
      var p := inv.payload;
      var peer := Peer(p.name, p.publicKey, p.presharedKey, Allowed(p.tunnelIP, p.remoteSubnets), p.endpoint, p.remoteSubnets, false, None);
      for i := 0 to |peers|
        invariant i <= Find(peers, p.name) && peers == old(peers)
      {
        if peers[i].name == p.name { return NotJoined; }
        FindPast(peers, p.name, i);
      }
      peers := peers + [peer];
      if !saved { return JoinUnsaved; }
      return Joined(Signed(site.codec, site.key, AckFor(p, generated.value, now - now % SECOND)), generated.value, peer);
    }

    method FinalizeInvite(name: string, token: string, saved: bool) returns (r: PeerResult)
      modifies this
      ensures peers == Finalized(old(peers), site, name, token)
      ensures r in {Done, NotSaved} <==> Finalizes(old(peers), site, name, token)
      ensures r == Done ==> saved && Find(peers, name) < |peers| && !peers[Find(peers, name)].pending
      ensures r == NotSaved ==> !saved
      ensures var ack := ParseAck(site.codec, site.key, token); r == BadAck <==> !(ack.Parsed? && ack.payload.name == name)
      ensures r == NoSuchPeer ==> Find(old(peers), name) == |old(peers)|
      ensures r == NotPending ==> Find(old(peers), name) < |old(peers)|
    {
      hide Open;
      var ack := ParseAck(site.codec, site.key, token);
      if !ack.Parsed? { return BadAck; }
      if ack.payload.name != name { return BadAck; }
      var idx := 0;
      while idx < |peers| && peers[idx].name != name
        invariant 0 <= idx <= Find(peers, name) && peers == old(peers)
      {
        FindPast(peers, name, idx);
        idx := idx + 1;
      }
      if idx == |peers| { return NoSuchPeer; }
      if !peers[idx].pending { return NotPending; }
      peers := peers[idx := peers[idx].(publicKey := ack.payload.publicKey, pending := false, expires := None)];
      FindUnchanged(old(peers), peers, name);
      return if saved then Done else NotSaved;
    }

    /** Cancelling a peer that is gone is no error; cancelling a finished one is. */
    method CancelInvite(name: string, saved: bool) returns (r: PeerResult)
      modifies this
      ensures peers == Cancelled(old(peers), name)
      ensures var i := Find(old(peers), name);
              && (r == NotPending <==> i < |old(peers)| && !old(peers)[i].pending)
              && (r == NotSaved <==> i < |old(peers)| && old(peers)[i].pending && !saved)
              && r in {Done, NotPending, NotSaved}
    {
      var i := 0;
      while i < |peers|
        invariant 0 <= i <= Find(peers, name) && peers == old(peers)
      {
        if peers[i].name != name {
          FindPast(peers, name, i);
          i := i + 1;
          continue;
        }
        if !peers[i].pending { return NotPending; }
        peers := peers[..i] + peers[i + 1..];
        return if saved then Done else NotSaved;
      }
      return Done;
    }

    method GCExpiredInvites(now: int) returns (reaped: nat)
      modifies this
      ensures peers == Unexpired(old(peers), now) && reaped == |old(peers)| - |peers|
    {
      var a := new Peer[|peers|](i requires 0 <= i < |peers| reads this => peers[i]);
      assert a[..] == peers;
      var kept;
      kept, reaped := CollectExpired(a, now);
      peers := a[..kept];
    }

    method RemovePeer(name: string, saved: bool) returns (r: PeerResult)
      modifies this
      ensures peers == Removed(old(peers), name)
      ensures r == NoSuchPeer <==> Find(old(peers), name) == |old(peers)|
      ensures r == NotSaved <==> Find(old(peers), name) < |old(peers)| && !saved
      ensures r in {Done, NoSuchPeer, NotSaved}
    {
      for i := 0 to |peers|
        invariant i <= Find(peers, name) && peers == old(peers)
      {
        if peers[i].name == name {
          peers := peers[..i] + peers[i + 1..];
          return if saved then Done else NotSaved;
        }
        FindPast(peers, name, i);
      }
      return NoSuchPeer;
    }
  }

  lemma FindPast(ps: seq<Peer>, name: string, i: nat)
    requires i <= Find(ps, name) && i < |ps| && ps[i].name != name
    ensures i + 1 <= Find(ps, name)
  {}

  lemma {:induction false} FindUnchanged(ps: seq<Peer>, qs: seq<Peer>, name: string)
    requires |ps| == |qs| && forall i :: 0 <= i < |ps| ==> ps[i].name == qs[i].name
    ensures Find(ps, name) == Find(qs, name)
  {
    var i, j := Find(ps, name), Find(qs, name);
    assert i < |ps| ==> qs[i].name == name;
    assert j < |qs| ==> ps[j].name == name;
  }

  // ---------- What every operation keeps ----------

  ghost predicate Distinct(ps: seq<Peer>) {
    forall i, j :: 0 <= i < j < |ps| ==> ps[i].name != ps[j].name && Host(ps[i].allowedIPs) != Host(ps[j].allowedIPs)
  }

  predicate LifeCycle(p: Peer) { (p.pending <==> p.expires.Some?) && (p.pending ==> p.publicKey == "") }

  ghost predicate Healthy(ps: seq<Peer>) { Distinct(ps) && forall i :: 0 <= i < |ps| ==> LifeCycle(ps[i]) }

  datatype Op =
    | Create(request: Request)
    | Finalize(name: string, token: string)
    | Cancel(name: string)
    | Collect(now: int)
    | Remove(name: string)

  ghost function Step(ps: seq<Peer>, site: Site, op: Op): seq<Peer> {
    match op
    case Create(q) => Created(ps, site, q)
    case Finalize(name, token) => Finalized(ps, site, name, token)
    case Cancel(name) => Cancelled(ps, name)
    case Collect(now) => Unexpired(ps, now)
    case Remove(name) => Removed(ps, name)
  }

  ghost function Run(ps: seq<Peer>, site: Site, ops: seq<Op>): seq<Peer>
    decreases |ops|
  {
    if ops == [] then ps else Run(Step(ps, site, ops[0]), site, ops[1..])
  }

  lemma {:induction false} UnexpiredFacts(ps: seq<Peer>, now: int)
    ensures forall p :: p in Unexpired(ps, now) <==> p in ps && !Stale(p, now)
    ensures Healthy(ps) ==> Healthy(Unexpired(ps, now))
  {
    if ps != [] {
      var rest := ps[1..];
      UnexpiredFacts(rest, now);
      assert ps == [ps[0]] + rest;
      if Healthy(ps) {
        assert Healthy(rest) by {
          assert forall i :: 0 <= i < |rest| ==> rest[i] == ps[i + 1];
        }
        if !Stale(ps[0], now) { HealthyCons(ps[0], rest, Unexpired(rest, now)); }
      }
    }
  }

  lemma HealthyCons(p: Peer, rest: seq<Peer>, sub: seq<Peer>)
    requires Healthy([p] + rest) && Healthy(sub) && forall x :: x in sub ==> x in rest
    ensures Healthy([p] + sub)
  {
    hide Host, LifeCycle;
    var all, out := [p] + rest, [p] + sub;
    assert LifeCycle(all[0]);
    forall j | 0 < j < |out| ensures p.name != out[j].name && Host(p.allowedIPs) != Host(out[j].allowedIPs) {
      assert out[j] == sub[j - 1] && sub[j - 1] in rest;
      var k :| 0 <= k < |rest| && rest[k] == out[j];
      assert all[k + 1] == rest[k] && all[0] == p;
    }
    forall i, j | 0 <= i < j < |out| ensures out[i].name != out[j].name && Host(out[i].allowedIPs) != Host(out[j].allowedIPs) {
      if i > 0 { assert out[i] == sub[i - 1] && out[j] == sub[j - 1]; }
    }
    forall i | 0 <= i < |out| ensures LifeCycle(out[i]) {
      if i > 0 { assert out[i] == sub[i - 1]; }
    }
  }

  lemma WithoutHealthy(ps: seq<Peer>, i: nat)
    requires Healthy(ps) && i < |ps|
    ensures Healthy(Without(ps, i))
    ensures forall p :: p in ps && p.name != ps[i].name ==> p in Without(ps, i)
  {
    hide Host, LifeCycle;
    var w := Without(ps, i);
    assert forall k :: 0 <= k < |w| ==> w[k] == ps[if k < i then k else k + 1];
    forall p | p in ps && p.name != ps[i].name ensures p in w {
      var k :| 0 <= k < |ps| && ps[k] == p;
      assert w[if k < i then k else k - 1] == p;
    }
  }

  lemma CreateHealthy(ps: seq<Peer>, site: Site, q: Request)
    requires Healthy(ps) && Accepts(ps, site, q)
    ensures Healthy(Created(ps, site, q))
    ensures Host(PendingPeer(ps, site, q).allowedIPs) == Candidate(LowestFree(ps, 2).value)
  {
    hide Host, Allowed, TunnelIP;
    var n, p, out := LowestFree(ps, 2).value, PendingPeer(ps, site, q), Created(ps, site, q);
    HostOfAllowed(n, q.expected);
    assert Free(ps, n);
    forall i, j | 0 <= i < j < |out| ensures out[i].name != out[j].name && Host(out[i].allowedIPs) != Host(out[j].allowedIPs) {
      if j == |ps| { assert out[i] == ps[i] && out[j] == p; }
    }
  }

  lemma FinalizeHealthy(ps: seq<Peer>, site: Site, name: string, token: string)
    requires Healthy(ps)
    ensures Healthy(Finalized(ps, site, name, token))
  {
    hide Host, ParseAck;
    var out := Finalized(ps, site, name, token);
    assert forall i :: 0 <= i < |ps| ==> out[i].name == ps[i].name && out[i].allowedIPs == ps[i].allowedIPs;
  }

  lemma WithoutFoundHealthy(ps: seq<Peer>, name: string)
    requires Healthy(ps)
    ensures Healthy(Cancelled(ps, name)) && Healthy(Removed(ps, name))
  {
    hide Healthy;
    if Find(ps, name) < |ps| { WithoutHealthy(ps, Find(ps, name)); }
  }

  lemma StepHealthy(ps: seq<Peer>, site: Site, op: Op)
    requires Healthy(ps)
    ensures Healthy(Step(ps, site, op))
  {
    hide Healthy, Accepts, PendingPeer, Finalized, Cancelled, Removed, Unexpired;
    match op
    case Create(q) => if Accepts(ps, site, q) { CreateHealthy(ps, site, q); }
    case Finalize(name, token) => FinalizeHealthy(ps, site, name, token);
    case Cancel(name) => WithoutFoundHealthy(ps, name);
    case Collect(now) => UnexpiredFacts(ps, now);
    case Remove(name) => WithoutFoundHealthy(ps, name);
  }

  /** Every run keeps names and tunnel addresses distinct, and a peer pending exactly while it has an
      expiry, and keyless while pending. */
  lemma {:induction false} RunHealthy(ps: seq<Peer>, site: Site, ops: seq<Op>)
    requires Healthy(ps)
    ensures Healthy(Run(ps, site, ops))
    decreases |ops|
  {
    hide Healthy, Step;
    if ops != [] {
      StepHealthy(ps, site, ops[0]);
      RunHealthy(Step(ps, site, ops[0]), site, ops[1..]);
    }
  }

  // ---------- Who survives ----------

  /** Does the operation leave this very peer alone? */
  predicate Spares(op: Op, p: Peer) {
    match op
    case Create(_) => true
    case Finalize(name, _) => !p.pending || name != p.name
    case Cancel(name) => !p.pending || name != p.name
    case Collect(now) => !Stale(p, now)
    case Remove(name) => name != p.name
  }

  lemma WithoutFoundSpares(ps: seq<Peer>, name: string, p: Peer)
    requires Healthy(ps) && p in ps
    ensures !p.pending || name != p.name ==> p in Cancelled(ps, name)
    ensures name != p.name ==> p in Removed(ps, name)
  {
    hide Healthy;
    var i := Find(ps, name);
    if i < |ps| {
      WithoutHealthy(ps, i);
      if name == p.name { FindMember(ps, p); }
    }
  }

  lemma FinalizeSpares(ps: seq<Peer>, site: Site, name: string, token: string, p: Peer)
    requires p in ps && (!p.pending || name != p.name)
    ensures p in Finalized(ps, site, name, token)
  {
    hide ParseAck;
    var k :| 0 <= k < |ps| && ps[k] == p;
    assert Finalized(ps, site, name, token)[k] == p;
  }

  lemma StepSpares(ps: seq<Peer>, site: Site, op: Op, p: Peer)
    requires Healthy(ps) && p in ps && Spares(op, p)
    ensures p in Step(ps, site, op)
  {
    hide Healthy, Accepts, PendingPeer, Finalized, Cancelled, Removed, Unexpired, Stale;
    match op
    case Create(q) => assert ps <= Created(ps, site, q);
    case Finalize(name, token) => FinalizeSpares(ps, site, name, token, p);
    case Cancel(name) => WithoutFoundSpares(ps, name, p);
    case Collect(now) => UnexpiredFacts(ps, now);
    case Remove(name) => WithoutFoundSpares(ps, name, p);
  }

  /** A peer, key included, survives any run whose operations spare it: a finished peer until it is removed
      by name, a pending one until finalized, cancelled, removed or collected after its expiry. */
  lemma {:induction false} RunSpares(ps: seq<Peer>, site: Site, ops: seq<Op>, p: Peer)
    requires Healthy(ps) && p in ps && forall i :: 0 <= i < |ops| ==> Spares(ops[i], p)
    ensures p in Run(ps, site, ops)
    decreases |ops|
  {
    hide Healthy, Step, Spares;
    if ops != [] {
      StepSpares(ps, site, ops[0], p);
      StepHealthy(ps, site, ops[0]);
      assert forall i :: 0 <= i < |ops| - 1 ==> ops[1..][i] == ops[i + 1];
      RunSpares(Step(ps, site, ops[0]), site, ops[1..], p);
    }
  }

  lemma NamesDiffer(ps: seq<Peer>, i: nat, j: nat)
    requires Healthy(ps) && i < j < |ps|
    ensures ps[i].name != ps[j].name
  {
    hide Host, LifeCycle;
  }

  lemma FindMember(ps: seq<Peer>, p: Peer)
    requires Healthy(ps) && p in ps
    ensures Find(ps, p.name) < |ps| && ps[Find(ps, p.name)] == p
  {
    hide Healthy, Find;
    var k :| 0 <= k < |ps| && ps[k] == p;
    var i := Find(ps, p.name);
    if i < k { NamesDiffer(ps, i, k); }
  }

  /** The token texts that a router issues parse, under its key, to what it signed and as their own kind only:
      an invite until it expires, an ack for good. */
  lemma IssuedTokensParse(ps: seq<Peer>, site: Site, q: Request, p: Payload, ourKey: string, at: int, now: int)
    requires Accepts(ps, site, q) && Faithful(site.codec)
    ensures var inv := InviteFor(ps, site, q);
            var token := Signed(site.codec, site.key, inv);
            && ParseInvite(site.codec, site.key, token, now) == (if now > Expiry(q) then Expired else Parsed(inv))
            && ParseAck(site.codec, site.key, token) == WrongKind
    ensures var ack := AckFor(p, ourKey, at);
            var token := Signed(site.codec, site.key, ack);
            && ParseAck(site.codec, site.key, token) == Parsed(ack)
            && ParseInvite(site.codec, site.key, token, now) == WrongKind
  {
    hide Signed, Open, Faithful, Accepts, TunnelIP, LowestFree;
    assert |INVITE| != |ACK|;
    var inv, ack := InviteFor(ps, site, q), AckFor(p, ourKey, at);
    OpensSigned(site.codec, site.key, site.key, inv, INVITE);
    OpensSigned(site.codec, site.key, site.key, inv, ACK);
    OpensSigned(site.codec, site.key, site.key, ack, INVITE);
    OpensSigned(site.codec, site.key, site.key, ack, ACK);
  }

  /** The handshake, on token texts, between two routers with one secret: create on one, anything that spares
      the invite there, consume on the other, finalize back on the first. Both then hold the same preshared
      key and tunnel address, and the originator holds the key the joining side generated. The joining side
      accepted the invite, so the originator's networks do not overlap its own. */
  lemma Handshake(ps: seq<Peer>, here: Site, q: Request, ops: seq<Op>, joiners: seq<Peer>, there: Site, joinedAt: int, generated: string, ackAt: int)
    requires Healthy(ps) && Accepts(ps, here, q)
    requires here.codec == there.codec && here.key == there.key && Faithful(here.codec)
    requires forall i :: 0 <= i < |ops| ==> Spares(ops[i], PendingPeer(ps, here, q))
    requires Joins(joiners, there, Signed(here.codec, here.key, InviteFor(ps, here, q)), joinedAt)
    ensures var inv := ParseInvite(there.codec, there.key, Signed(here.codec, here.key, InviteFor(ps, here, q)), joinedAt).payload;
            var joined := JoinedPeer(inv);
            var ack := Signed(there.codec, there.key, AckFor(inv, generated, ackAt));
            var end := Finalized(Run(Created(ps, here, q), here, ops), here, q.name, ack);
            var i := Find(end, q.name);
            && i < |end| && !end[i].pending && end[i].publicKey == generated && joined.publicKey == here.publicKey
            && end[i].presharedKey == joined.presharedKey == q.psk.value
            && Host(end[i].allowedIPs) == Host(joined.allowedIPs) == Candidate(LowestFree(ps, 2).value)
            && joined.endpoint == q.endpoint && joined.remoteSubnets == here.locals && end[i].remoteSubnets == q.expected
            && joined.allowedIPs == Allowed(TunnelIP(LowestFree(ps, 2).value), here.locals)
            && end[i].allowedIPs == Allowed(TunnelIP(LowestFree(ps, 2).value), q.expected)
            && !joined.pending && Healthy(end) && !Conflict(there.parse, here.locals, there.locals)
  {
    hide Host, Allowed, TunnelIP, Conflict, Signed, ParseInvite, ParseAck, Faithful;
    var inv, p, mid := InviteFor(ps, here, q), PendingPeer(ps, here, q), Run(Created(ps, here, q), here, ops);
    CreateHealthy(ps, here, q);
    assert Created(ps, here, q)[|ps|] == p;
    RunSpares(Created(ps, here, q), here, ops, p);
    RunHealthy(Created(ps, here, q), here, ops);
    hide Run, Created, Healthy;
    FindMember(mid, p);
    HostOfAllowed(LowestFree(ps, 2).value, here.locals);
    var ack := Signed(there.codec, there.key, AckFor(inv, generated, ackAt));
    IssuedTokensParse(ps, here, q, inv, generated, ackAt, joinedAt);
    FinalizeHealthy(mid, here, q.name, ack);
    FindUnchanged(mid, Finalized(mid, here, q.name, ack), q.name);
  }

  // ---------- Who goes ----------

  /** The peers of any other name, in order. */
  function OthersThan(ps: seq<Peer>, name: string): seq<Peer> {
    if ps == [] then [] else if ps[0].name == name then OthersThan(ps[1..], name) else [ps[0]] + OthersThan(ps[1..], name)
  }

  lemma {:induction false} OthersConcat(a: seq<Peer>, b: seq<Peer>, name: string)
    ensures OthersThan(a + b, name) == OthersThan(a, name) + OthersThan(b, name)
  {
    if a == [] {
      assert a + b == b;
    } else {
      assert (a + b)[1..] == a[1..] + b;
      OthersConcat(a[1..], b, name);
    }
  }

  lemma {:induction false} NobodyNamed(ps: seq<Peer>, name: string)
    requires forall i :: 0 <= i < |ps| ==> ps[i].name != name
    ensures OthersThan(ps, name) == ps
  {
    if ps != [] { NobodyNamed(ps[1..], name); }
  }

  lemma {:induction false} OthersAreOthers(ps: seq<Peer>, name: string)
    ensures forall p :: p in OthersThan(ps, name) <==> p in ps && p.name != name
  {
    if ps != [] {
      OthersAreOthers(ps[1..], name);
      assert ps == [ps[0]] + ps[1..];
    }
  }

  lemma WithoutIsOthers(ps: seq<Peer>, i: nat)
    requires Healthy(ps) && i < |ps|
    ensures Without(ps, i) == OthersThan(ps, ps[i].name)
  {
    hide Healthy, OthersThan;
    var name := ps[i].name;
    forall k | 0 <= k < |ps| && k != i ensures ps[k].name != name {
      if k < i { NamesDiffer(ps, k, i); } else { NamesDiffer(ps, i, k); }
    }
    var before, after := ps[..i], ps[i + 1..];
    NobodyNamed(before, name);
    NobodyNamed(after, name);
    NamesakeDropped(ps[i], after);
    assert ps == before + ([ps[i]] + after);
    OthersConcat(before, [ps[i]] + after, name);
  }

  lemma NamesakeDropped(p: Peer, rest: seq<Peer>)
    ensures OthersThan([p] + rest, p.name) == OthersThan(rest, p.name)
  {
    assert ([p] + rest)[1..] == rest;
  }

  /** Removing a name leaves exactly the peers of other names, in order; so does cancelling one, unless its peer
      is finished, when nothing changes. */
  lemma RemovalMeans(ps: seq<Peer>, name: string)
    requires Healthy(ps)
    ensures Removed(ps, name) == OthersThan(ps, name)
    ensures Cancelled(ps, name) == if exists p :: p in ps && p.name == name && !p.pending then ps else OthersThan(ps, name)
    ensures forall p :: p in OthersThan(ps, name) <==> p in ps && p.name != name
  {
    hide Healthy, Find;
    OthersAreOthers(ps, name);
    var i := Find(ps, name);
    if i < |ps| {
      WithoutIsOthers(ps, i);
      forall p | p in ps && p.name == name ensures p == ps[i] { FindMember(ps, p); }
    } else {
      NobodyNamed(ps, name);
    }
  }

  /** The address of a removed peer is free again, and the next invite takes it or a lower one. */
  lemma RemovalFreesAddress(ps: seq<Peer>, p: Peer, n: nat)
    requires Healthy(ps) && p in ps && Host(p.allowedIPs) == Candidate(n) && 2 <= n < 255
    ensures Free(Removed(ps, p.name), n) && LowestFree(Removed(ps, p.name), 2).Some? && LowestFree(Removed(ps, p.name), 2).value <= n
  {
    hide Host, LowestFree, LifeCycle;
    var rest := Removed(ps, p.name);
    RemovalMeans(ps, p.name);
    CandidatesDiffer(1, n);
    FirstCandidate();
    forall i | 0 <= i < |rest| ensures Host(rest[i].allowedIPs) != Candidate(n) {
      assert rest[i] in ps && rest[i].name != p.name;
      AddressesDiffer(ps, rest[i], p);
    }
  }

  lemma FirstCandidate()
    ensures Candidate(1) == SERVER
  {
    assert Dec(1) == "1";
  }

  lemma AddressesDiffer(ps: seq<Peer>, p: Peer, q: Peer)
    requires Healthy(ps) && p in ps && q in ps && p != q
    ensures Host(p.allowedIPs) != Host(q.allowedIPs)
  {
    hide Host, LifeCycle;
    var i :| 0 <= i < |ps| && ps[i] == p;
    var j :| 0 <= j < |ps| && ps[j] == q;
  }

  lemma {:induction false} UnexpiredHas(ps: seq<Peer>, now: int, p: Peer)
    ensures p in Unexpired(ps, now) <==> p in ps && !(p.pending && p.expires.Some? && now > p.expires.value)
  {
    UnexpiredFacts(ps, now);
  }

  /** An invite issued at an instant lasts for the hour from the start of its second, and is collected exactly
      after that; a finished peer never is. */
  lemma InviteLastsAnHour(ps: seq<Peer>, site: Site, q: Request, now: int, finished: Peer)
    requires Accepts(ps, site, q) && finished in ps && !finished.pending
    ensures PendingPeer(ps, site, q) in Unexpired(Created(ps, site, q), now) <==> now <= q.now - q.now % 1_000_000_000 + 3600 * 1_000_000_000
    ensures finished in Unexpired(Created(ps, site, q), now)
  {
    var p, out := PendingPeer(ps, site, q), Created(ps, site, q);
    assert out[|ps|] == p;
    UnexpiredHas(out, now, p);
    UnexpiredHas(out, now, finished);
  }

  // ---------- Routes ----------

  function Trims(parts: seq<string>): seq<string> { seq(|parts|, i requires 0 <= i < |parts| => TrimSpace(parts[i])) }

  /** What WireGuard reads out of an AllowedIPs list. */
  function Routes(allowed: string): seq<string> { Trims(Split(allowed, ',')) }

  lemma LeadingBlank(s: string)
    ensures TrimSpace(" " + s) == TrimSpace(s)
  {
    assert (" " + s)[1..] == s;
  }

  lemma TrimsCons(a: string, rest: seq<string>)
    ensures Trims([a] + rest) == [TrimSpace(a)] + Trims(rest)
  {}

  lemma {:induction false} JoinReads(lead: string, parts: seq<string>)
    requires parts != [] && lead in {"", " "} && forall p :: p in parts ==> ',' !in p
    ensures Routes(lead + Join(parts)) == Trims(parts)
    decreases |parts|
  {
    hide TrimSpace, Split;
    var head := lead + parts[0];
    if lead == " " { LeadingBlank(parts[0]); } else { assert head == parts[0]; }
    assert ',' !in head by { assert parts[0] in parts; }
    if |parts| == 1 {
      SplitWhole(head, ',');
      assert lead + Join(parts) == head;
    } else {
      var rest := parts[1..];
      assert lead + Join(parts) == head + [','] + (" " + Join(rest));
      SplitAt(head, ',', " " + Join(rest));
      JoinReads(" ", rest);
      TrimsCons(head, Split(" " + Join(rest), ','));
      TrimsCons(parts[0], rest);
      assert parts == [parts[0]] + rest;
    }
  }

  /** A peer routes exactly its tunnel address and the subnets given for it. */
  lemma AllowedRoutes(tunnel: string, subnets: seq<string>)
    requires ',' !in tunnel && forall p :: p in subnets ==> ',' !in p
    ensures Routes(Allowed(tunnel, subnets)) == [TrimSpace(tunnel)] + Trims(subnets)
  {
    hide TrimSpace, Split;
    var all := [tunnel] + subnets;
    TrimsCons(tunnel, subnets);
    assert all[1..] == subnets;
    assert Allowed(tunnel, subnets) == "" + Join(all);
    JoinReads("", all);
  }

  lemma {:induction false} TrimKeeps(s: string, c: char)
    requires c !in s
    ensures c !in TrimSpace(s)
  {
    var a, b := TrimMeans(s);
  }

  /** The address of any list that starts with one, with or without a mask. */
  lemma HostMeans(a: string, rest: string)
    requires '/' !in a && ',' !in a && (rest == "" || rest[0] == '/')
    ensures Host(a + rest) == TrimSpace(a)
  {
    hide TrimSpace, Split, IndexOf, Before;
    TrimIdempotent(a);
    TrimKeeps(a, ',');
    SplitWhole(TrimSpace(a), ',');
    if rest == "" {
      assert a + rest == a;
      SplitWhole(a, '/');
    } else {
      assert a + rest == a + ['/'] + rest[1..];
      SplitAt(a, '/', rest[1..]);
    }
  }

  // ---------- Operations outside the invite protocol ----------

  /** AddPeer numbers by list length: it keeps the list healthy exactly when the name is new and that
      address is not in use. */
  lemma AddPeerHealthyIff(ps: seq<Peer>, name: string, publicKey: string, psk: string, subnets: seq<string>)
    requires Healthy(ps)
    ensures var p := Peer(name, publicKey, psk, Allowed(TunnelIP(|ps| + 2), subnets), "", subnets, false, None);
            Healthy(ps + [p]) <==>
              Find(ps, name) == |ps| && forall i :: 0 <= i < |ps| ==> Host(ps[i].allowedIPs) != Candidate(|ps| + 2)
  {
    hide Host, Allowed, TunnelIP;
    var p := Peer(name, publicKey, psk, Allowed(TunnelIP(|ps| + 2), subnets), "", subnets, false, None);
    var out := ps + [p];
    HostOfAllowed(|ps| + 2, subnets);
    assert forall i :: 0 <= i < |ps| ==> out[i] == ps[i];
    assert out[|ps|] == p;
    if Healthy(out) {
      assert forall i :: 0 <= i < |ps| ==> out[i].name != out[|ps|].name && Host(out[i].allowedIPs) != Host(out[|ps|].allowedIPs);
    }
  }

  lemma HostsDiffer()
    ensures Host(TunnelIP(2)) != Host(TunnelIP(3))
  {
    HostOfAllowed(2, []);
    HostOfAllowed(3, []);
    CandidatesDiffer(2, 3);
    hide Host, Candidate, TunnelIP;
  }

  lemma CandidatesDiffer(m: nat, n: nat)
    requires m != n
    ensures Candidate(m) != Candidate(n)
  {
    hide Dec;
    assert Candidate(m)[9..] == Dec(m) && Candidate(n)[9..] == Dec(n);
    if Dec(m) == Dec(n) { DecInjective(m, n); }
  }

  lemma FirstFound(p: Peer, q: Peer)
    ensures Removed([p, q], p.name) == [q]
  {
    assert Find([p, q], p.name) == 0;
    assert Without([p, q], 0) == [q];
  }

  lemma FinishedPair(p: Peer, q: Peer)
    requires !p.pending && p.expires.None? && !q.pending && q.expires.None?
    ensures Healthy([p, q]) <==> p.name != q.name && Host(p.allowedIPs) != Host(q.allowedIPs)
  {
    hide Host;
    var ps := [p, q];
    assert ps[0] == p && ps[1] == q;
  }

  /** Two peers, the first removed, one added: the new peer gets the address of the one that stayed. */
  lemma AddPeerCollides(publicKey: string, psk: string)
    ensures var a := Peer("a", publicKey, psk, TunnelIP(2), "", [], false, None);
            var b := a.(name := "b", allowedIPs := TunnelIP(3));
            var c := a.(name := "c", allowedIPs := TunnelIP(|Removed([a, b], "a")| + 2));
            Healthy([a, b]) && Removed([a, b], "a") == [b] && c.allowedIPs == b.allowedIPs && !Healthy([b, c])
  {
    var a := Peer("a", publicKey, psk, TunnelIP(2), "", [], false, None);
    var b := a.(name := "b", allowedIPs := TunnelIP(3));
    var c := a.(name := "c", allowedIPs := TunnelIP(3));
    hide *;
    FirstFound(a, b);
    HostsDiffer();
    assert a.name[0] != b.name[0];
    FinishedPair(a, b);
    FinishedPair(b, c);
  }
}
