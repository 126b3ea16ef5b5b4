/** The client address of a request, and what sanitising and proxying the forwarding headers does to it. */
module ClientIP {
  import opened Strings
  import opened Headers

  const FORWARDED_FOR := "X-Forwarded-For"
  const REAL_IP := "X-Real-Ip"

  /** req.RemoteAddr, as net.SplitHostPort reads it. */
  datatype Remote = HostPort(host: string) | NoPort(raw: string)

  /** net.ParseIP, and containment in the configured networks. */
  datatype Networks = Networks(parses: string -> bool, contains: string -> bool)

  predicate AsciiSpace(c: char) {
    c in {' ', '\t', '\n', '\r', '\U{0B}', '\U{0C}'}
  }

  /** The white space outside ASCII whose encoding takes two bytes. */
  predicate TwoByteSpace(a: char, b: char) {
    a == '\U{C2}' && (b == '\U{85}' || b == '\U{A0}')
  }

  /** The white space outside ASCII whose encoding takes three bytes. */
  predicate ThreeByteSpace(a: char, b: char, c: char) {
    || (a == '\U{E1}' && b == '\U{9A}' && c == '\U{80}')
    || (a == '\U{E2}' && b == '\U{80}' && ('\U{80}' <= c <= '\U{8A}' || c in {'\U{A8}', '\U{A9}', '\U{AF}'}))
    || (a == '\U{E2}' && b == '\U{81}' && c == '\U{9F}')
    || (a == '\U{E3}' && b == '\U{80}' && c == '\U{80}')
  }

  /** The bytes of the white space a string starts with, one code point of it. */
  function SpaceInFront(s: string): (n: nat)
    ensures n <= |s|
  {
    if s == "" then 0
    else if AsciiSpace(s[0]) then 1
    else if |s| >= 2 && TwoByteSpace(s[0], s[1]) then 2
    else if |s| >= 3 && ThreeByteSpace(s[0], s[1], s[2]) then 3
    else 0
  }

  /** The bytes of the white space a string ends with, one code point of it. */
  function SpaceAtEnd(s: string): (n: nat)
    ensures n <= |s|
  {
    var k := |s|;
    if s == "" then 0
    else if AsciiSpace(s[k - 1]) then 1
    else if k >= 2 && TwoByteSpace(s[k - 2], s[k - 1]) then 2
    else if k >= 3 && ThreeByteSpace(s[k - 3], s[k - 2], s[k - 1]) then 3
    else 0
  }

  /** Only addresses are in a network, and an address is written in visible ASCII without a comma. */
  ghost predicate WellFormed(n: Networks) {
    && (forall s :: n.contains(s) ==> n.parses(s))
    && (forall s :: n.parses(s) ==> s != "" && Visible(s) && ',' !in s)
  }

  ghost predicate Visible(s: string) {
    forall c :: c in s ==> '!' <= c <= '~'
  }

  function TrimLeft(s: string): string
    decreases |s|
  {
    if SpaceInFront(s) > 0 then TrimLeft(s[SpaceInFront(s)..]) else s
  }

  function TrimRight(s: string): string
    decreases |s|
  {
    if SpaceAtEnd(s) > 0 then TrimRight(s[..|s| - SpaceAtEnd(s)]) else s
  }

  /** strings.TrimSpace */
  function Trim(s: string): string {
    TrimRight(TrimLeft(s))
  }

  function PeerHost(remote: Remote): string {
    match remote
    case HostPort(host) => host
    case NoPort(raw) => raw
  }

  /** The walk from the hop nearest the proxy: trusted hops are skipped, the first other one is the client,
      and nothing left of a malformed hop counts. */
  function FirstUntrusted(hops: seq<string>, n: Networks): Option<string> {
    if hops == [] then None
    else
      var ip := Trim(hops[|hops| - 1]);
      if !n.parses(ip) then None
      else if n.contains(ip) then FirstUntrusted(hops[..|hops| - 1], n)
      else Some(ip)
  }

  function Resolve(remote: Remote, xff: string, n: Networks): string {
    var peer := PeerHost(remote);
    if xff == "" || !n.contains(peer) then peer
    else match FirstUntrusted(SplitOn(xff, ','), n)
      case Some(ip) => ip
      case None => peer
  }

  /** The resolver behind the audit log and the Remote-Client-IP extra. */
  method ResolveClientIP(remote: Remote, xff: string, n: Networks) returns (client: string)
    ensures client == Resolve(remote, xff, n)
  {
    var peer := PeerHost(remote);
    if xff == "" || !n.contains(peer) {
      return peer;
    }
    var hops := SplitOn(xff, ',');
    var i := |hops|;
    assert hops[..i] == hops;
    while i > 0
      invariant 0 <= i <= |hops|
      invariant FirstUntrusted(hops[..i], n) == FirstUntrusted(hops, n)
    {
      assert hops[..i][..i - 1] == hops[..i - 1];
      i := i - 1;
      var ip := Trim(hops[i]);
      if !n.parses(ip) {
        return peer;
      }
      if !n.contains(ip) {
        return ip;
      }
    }
    client := peer;
  }

  // ---- The headers on their way through ----

  /** SanitizeForwardHeaders */
  function Sanitize(h: Header, remote: Remote, n: Networks): Header {
    var xff := Get(h, FORWARDED_FOR);
    if xff == "" && Get(h, REAL_IP) == "" then h
    else
      var dropped := Del(h, REAL_IP);
      if xff == "" then dropped
      else
        var resolved := Resolve(remote, xff, n);
        if resolved == PeerHost(remote) then Del(dropped, FORWARDED_FOR)
        else Set(dropped, FORWARDED_FOR, resolved)
  }

  /** A request's header map while the sanitising filter edits it. */
  class Inbound {
    const remote: Remote
    var headers: Header

    constructor (remote: Remote, headers: Header)
      ensures this.remote == remote && this.headers == headers
    {
      this.remote, this.headers := remote, headers;
    }

    method SanitizeForwardHeaders(n: Networks)
      modifies this
      ensures headers == Sanitize(old(headers), remote, n)
    {
      var xff := Get(headers, FORWARDED_FOR);
      if xff == "" && Get(headers, REAL_IP) == "" {
        return;
      }
      headers := Del(headers, REAL_IP);
      if xff == "" {
        return;
      }
      var resolved := ResolveClientIP(remote, xff, n);
      if resolved == PeerHost(remote) {
        headers := Del(headers, FORWARDED_FOR);
        return;
      }
      headers := Set(headers, FORWARDED_FOR, resolved);
    }
  }

  const CONNECTION := "Connection"

  /** The headers httputil.ReverseProxy always takes out. */
  const HOP_HEADERS: set<string> := {
    CONNECTION, "Proxy-Connection", "Keep-Alive", "Proxy-Authenticate", "Proxy-Authorization", "Te", "Trailer",
    "Transfer-Encoding", "Upgrade"}

  predicate HeaderSpace(c: char) {
    c in {' ', '\t', '\n', '\r'}
  }

  /** textproto.TrimString */
  function TrimString(s: string): string {
    if s != "" && HeaderSpace(s[0]) then TrimString(s[1..])
    else if s != "" && HeaderSpace(s[|s| - 1]) then TrimString(s[..|s| - 1])
    else s
  }

  /** The headers the request's Connection lines name as not to be passed on. */
  function ListedNames(h: Header): set<string> {
    var lines := if CONNECTION in h then h[CONNECTION] else [];
    set line, name | line in lines && name in SplitOn(line, ',') && TrimString(name) != "" ::
      CanonicalKey(TrimString(name))
  }

  /** The removal of hop-by-hop headers, those the request lists first (section 7.6.1 of RFC 9110). */
  function RemoveHopByHop(h: Header): Header {
    h - ListedNames(h) - HOP_HEADERS
  }

  /** What httputil.ReverseProxy makes of the headers before it calls the transport, as far as the forwarded
      chain goes. */
  function Proxied(h: Header, remote: Remote): Header {
    AppendPeer(RemoveHopByHop(h), remote)
  }

  /** The peer is appended to the joined chain. */
  function AppendPeer(h: Header, remote: Remote): Header {
    match remote
    case NoPort(_) => h
    case HostPort(host) =>
      var prior := Values(h, FORWARDED_FOR);
      Set(h, FORWARDED_FOR, if prior == [] then host else JoinWith(prior, ", ") + ", " + host)
  }

  /** The client a reader of the headers resolves. */
  function Client(h: Header, remote: Remote, n: Networks): string {
    Resolve(remote, Get(h, FORWARDED_FOR), n)
  }

  // ---- Trimming and splitting ----

  lemma {:induction false} TrimsToItself(s: string)
    requires Visible(s)
    ensures Trim(s) == s && Trim(" " + s) == s
  {
    assert SpaceInFront(s) == 0 && SpaceAtEnd(s) == 0 by {
      if s != "" {
        assert s[0] in s && s[|s| - 1] in s;
      }
    }
    assert SpaceInFront(" " + s) == 1 && (" " + s)[1..] == s;
  }

  /** An appended trusted hop is skipped. */
  lemma AppendedPeerIsSkipped(chain: string, peer: string, n: Networks)
    requires WellFormed(n) && n.contains(peer)
    ensures FirstUntrusted(SplitOn(chain + ", " + peer, ','), n) == FirstUntrusted(SplitOn(chain, ','), n)
  {
    assert chain + ", " + peer == chain + [','] + (" " + peer);
    SplitConcat(chain, ',', " " + peer);
    SplitNoSeparator(" " + peer, ',');
    TrimsToItself(peer);
    var hops := SplitOn(chain, ',') + [" " + peer];
    assert hops[..|hops| - 1] == SplitOn(chain, ',');
  }

  /** A chain of one untrusted address resolves to that address. */
  lemma OneHop(ip: string, n: Networks)
    requires WellFormed(n) && n.parses(ip) && !n.contains(ip)
    ensures FirstUntrusted(SplitOn(ip, ','), n) == Some(ip)
  {
    SplitNoSeparator(ip, ',');
    TrimsToItself(ip);
  }

  lemma OneTrustedHop(ip: string, n: Networks)
    requires WellFormed(n) && n.contains(ip)
    ensures FirstUntrusted(SplitOn(ip, ','), n) == None
  {
    SplitNoSeparator(ip, ',');
    TrimsToItself(ip);
    assert [ip][..0] == [];
  }

  // ---- What is resolved ----

  /** Whether a hop is a well-formed trusted one. */
  predicate TrustedHop(hop: string, n: Networks) {
    n.parses(Trim(hop)) && n.contains(Trim(hop))
  }

  /** Hop i is the one the walk stops at: everything to its right is a well-formed trusted hop. */
  ghost predicate StopsAt(hops: seq<string>, i: nat, n: Networks) {
    && i < |hops| && !TrustedHop(hops[i], n)
    && forall j :: i < j < |hops| ==> TrustedHop(hops[j], n)
  }

  lemma {:induction false} SomeStopUnlessTrusted(hops: seq<string>, n: Networks)
    ensures (exists i: nat :: StopsAt(hops, i, n)) || forall j :: 0 <= j < |hops| ==> TrustedHop(hops[j], n)
  {
    if hops != [] {
      var k: nat := |hops| - 1;
      if TrustedHop(hops[k], n) {
        SomeStopUnlessTrusted(hops[..k], n);
        if i: nat :| StopsAt(hops[..k], i, n) {
          assert forall j :: 0 <= j < k ==> hops[..k][j] == hops[j];
          assert StopsAt(hops, i, n);
        }
      } else {
        assert StopsAt(hops, k, n);
      }
    }
  }

  lemma {:induction false} AllTrustedYieldNone(hops: seq<string>, n: Networks)
    requires forall j :: 0 <= j < |hops| ==> TrustedHop(hops[j], n)
    ensures FirstUntrusted(hops, n) == None
  {
    if hops != [] {
      AllTrustedYieldNone(hops[..|hops| - 1], n);
    }
  }

  lemma {:induction false} StopYields(hops: seq<string>, i: nat, n: Networks)
    requires StopsAt(hops, i, n)
    ensures FirstUntrusted(hops, n) == if n.parses(Trim(hops[i])) then Some(Trim(hops[i])) else None
  {
    var k: nat := |hops| - 1;
    if i < k {
      assert hops[..k][i] == hops[i];
      StopYields(hops[..k], i, n);
    }
  }

  /** The result is the rightmost hop that is not a well-formed trusted one, if that hop is an address; a
      malformed one, or running out of hops, yields none. */
  lemma RightmostUntrusted(hops: seq<string>, n: Networks)
    ensures (exists i: nat :: StopsAt(hops, i, n)) || forall j :: 0 <= j < |hops| ==> TrustedHop(hops[j], n)
    ensures (forall j :: 0 <= j < |hops| ==> TrustedHop(hops[j], n)) ==> FirstUntrusted(hops, n) == None
    ensures forall i: nat :: StopsAt(hops, i, n) ==>
      FirstUntrusted(hops, n) == if n.parses(Trim(hops[i])) then Some(Trim(hops[i])) else None
  {
    SomeStopUnlessTrusted(hops, n);
    if forall j :: 0 <= j < |hops| ==> TrustedHop(hops[j], n) {
      AllTrustedYieldNone(hops, n);
    }
    forall i: nat | StopsAt(hops, i, n)
      ensures FirstUntrusted(hops, n) == if n.parses(Trim(hops[i])) then Some(Trim(hops[i])) else None
    {
      StopYields(hops, i, n);
    }
  }

  /** What the walk returns is an untrusted address. */
  lemma {:induction false} WalkReturnsUntrusted(hops: seq<string>, n: Networks)
    ensures var r := FirstUntrusted(hops, n); r.Some? ==> n.parses(r.value) && !n.contains(r.value)
  {
    if hops != [] {
      WalkReturnsUntrusted(hops[..|hops| - 1], n);
    }
  }

  lemma FixedKeys()
    ensures CanonicalKey(FORWARDED_FOR) == FORWARDED_FOR && CanonicalKey(REAL_IP) == REAL_IP
    ensures FORWARDED_FOR != REAL_IP
  {
    assert |FORWARDED_FOR| == 15 && |REAL_IP| == 9;
    forall i: nat | i < 15
      ensures CanonicalChar(FORWARDED_FOR, i) == FORWARDED_FOR[i]
    {
    }
    forall i: nat | i < 9
      ensures CanonicalChar(REAL_IP, i) == REAL_IP[i]
    {
    }
  }

  /** What the sanitised header holds: the one resolved address, nothing, or what it held before. */
  lemma SanitizedHeader(h: Header, remote: Remote, n: Networks)
    ensures var out := Sanitize(h, remote, n);
      && Values(out, FORWARDED_FOR) ==
           (if Get(h, FORWARDED_FOR) == "" then Values(h, FORWARDED_FOR)
            else if Client(h, remote, n) == PeerHost(remote) then []
            else [Client(h, remote, n)])
      && Get(out, REAL_IP) == ""
      && forall k :: k != FORWARDED_FOR && k != REAL_IP ==>
           (k in out <==> k in h) && (k in h ==> out[k] == h[k])
  {
    FixedKeys();
  }

  /** An address the walk returned is untrusted, well formed and not the peer. */
  lemma ResolvedIsUntrusted(remote: Remote, xff: string, n: Networks)
    requires WellFormed(n) && Resolve(remote, xff, n) != PeerHost(remote)
    ensures n.contains(PeerHost(remote)) && xff != ""
    ensures n.parses(Resolve(remote, xff, n)) && !n.contains(Resolve(remote, xff, n))
  {
    WalkReturnsUntrusted(SplitOn(xff, ','), n);
  }

  /** Sanitising keeps the resolved client. */
  lemma SanitizingKeepsClient(h: Header, remote: Remote, n: Networks)
    requires WellFormed(n)
    ensures Client(Sanitize(h, remote, n), remote, n) == Client(h, remote, n)
  {
    SanitizedHeader(h, remote, n);
    if Client(h, remote, n) != PeerHost(remote) {
      ResolvedIsUntrusted(remote, Get(h, FORWARDED_FOR), n);
      OneHop(Client(h, remote, n), n);
    }
  }

  /** Sanitising twice is sanitising once. */
  lemma SanitizingIsIdempotent(h: Header, remote: Remote, n: Networks)
    requires WellFormed(n)
    ensures Sanitize(Sanitize(h, remote, n), remote, n) == Sanitize(h, remote, n)
  {
    FixedKeys();
    SanitizedHeader(h, remote, n);
    SanitizingKeepsClient(h, remote, n);
    var once := Sanitize(h, remote, n);
    if REAL_IP in once {
      assert Values(once, REAL_IP) == once[REAL_IP];
    }
  }

  /** Sanitising leaves a header map of the shape net/http hands over. */
  lemma SanitizingKeepsShape(h: Header, remote: Remote, n: Networks)
    requires FromServer(h)
    ensures FromServer(Sanitize(h, remote, n))
    ensures forall k :: k in Sanitize(h, remote, n) && k != FORWARDED_FOR ==> k in h && Sanitize(h, remote, n)[k] == h[k]
  {
    FixedKeys();
  }

  // ---- After the reverse proxy has edited the headers ----

  /** Requests whose chain is restored on the way through: a trusted peer sends an empty first X-Forwarded-For
      line, so nothing is resolved or sanitised, and a later line names an untrusted address, which joining the
      lines brings back. */
  ghost predicate LaterLineSurfaces(h: Header, remote: Remote, n: Networks) {
    && remote.HostPort? && n.contains(remote.host)
    && Get(h, FORWARDED_FOR) == ""
    && |Values(h, FORWARDED_FOR)| > 1
    && FirstUntrusted(SplitOn(JoinWith(Values(h, FORWARDED_FOR), ", "), ','), n).Some?
  }

  /** Requests whose chain is removed on the way through: the Connection header lists it. */
  predicate ChainIsListed(h: Header) {
    FORWARDED_FOR in ListedNames(h)
  }

  /** What a reader of the outgoing request resolves. */
  function OutgoingClient(h: Header, remote: Remote, n: Networks): string {
    Client(Proxied(Sanitize(h, remote, n), remote), remote, n)
  }

  lemma OutgoingHeader(h: Header, remote: Remote)
    requires remote.HostPort?
    ensures Get(AppendPeer(h, remote), FORWARDED_FOR)
      == if Values(h, FORWARDED_FOR) == [] then remote.host
         else JoinWith(Values(h, FORWARDED_FOR), ", ") + ", " + remote.host
  {
    FixedKeys();
  }

  lemma FixedConnection()
    ensures CONNECTION != FORWARDED_FOR && CONNECTION != REAL_IP && FORWARDED_FOR !in HOP_HEADERS
  {
    assert |CONNECTION| == 10 && |REAL_IP| == 9 && |FORWARDED_FOR| == 15;
    assert FORWARDED_FOR[0] == 'X';
  }

  /** What is left of the chain: all of it, or nothing when it is listed; and sanitising lists nothing. */
  lemma ChainAfterRemoval(h: Header, remote: Remote, n: Networks)
    ensures ListedNames(Sanitize(h, remote, n)) == ListedNames(h)
    ensures Values(RemoveHopByHop(h), FORWARDED_FOR) == if ChainIsListed(h) then [] else Values(h, FORWARDED_FOR)
  {
    FixedKeys();
    FixedConnection();
    SanitizedHeader(h, remote, n);
  }

  /** Without a chain the outgoing request names the peer. */
  lemma RemovedChainNamesThePeer(h: Header, remote: Remote, n: Networks)
    requires WellFormed(n) && Values(h, FORWARDED_FOR) == []
    ensures Client(AppendPeer(h, remote), remote, n) == PeerHost(remote)
  {
    FixedKeys();
    if remote.HostPort? {
      OutgoingHeader(h, remote);
      if n.contains(remote.host) {
        OneTrustedHop(remote.host, n);
      }
    }
  }

  /** With it the client survives, except where a later line surfaces. */
  lemma KeptChainNamesTheClient(h: Header, kept: Header, remote: Remote, n: Networks)
    requires WellFormed(n) && Values(kept, FORWARDED_FOR) == Values(Sanitize(h, remote, n), FORWARDED_FOR)
    ensures Client(AppendPeer(kept, remote), remote, n) == Client(h, remote, n) <==> !LaterLineSurfaces(h, remote, n)
  {
    SanitizedHeader(h, remote, n);
    SanitizingKeepsClient(h, remote, n);
    if remote.HostPort? {
      var peer, prior := remote.host, Values(kept, FORWARDED_FOR);
      OutgoingHeader(kept, remote);
      if n.contains(peer) {
        if prior == [] {
          OneTrustedHop(peer, n);
        } else {
          AppendedPeerIsSkipped(JoinWith(prior, ", "), peer, n);
          if Get(h, FORWARDED_FOR) != "" {
            ResolvedIsUntrusted(remote, Get(h, FORWARDED_FOR), n);
            OneHop(Client(h, remote, n), n);
          } else {
            WalkReturnsUntrusted(SplitOn(JoinWith(prior, ", "), ','), n);
            LoneEmptyLine(prior, n);
          }
        }
      }
    }
  }

  /** Of any request that carries the sanitised chain and lists the same headers: when the client a reader of what
      the reverse proxy sends resolves is another than the one resolved on arrival. */
  lemma PassedOnClientAgrees(h: Header, out: Header, remote: Remote, n: Networks)
    requires WellFormed(n) && ListedNames(out) == ListedNames(h)
    requires Values(out, FORWARDED_FOR) == Values(Sanitize(h, remote, n), FORWARDED_FOR)
    ensures Client(Proxied(out, remote), remote, n) != Client(h, remote, n)
      <==> if ChainIsListed(h) then Client(h, remote, n) != PeerHost(remote) else LaterLineSurfaces(h, remote, n)
  {
    ChainAfterRemoval(out, remote, n);
    if ChainIsListed(h) {
      RemovedChainNamesThePeer(RemoveHopByHop(out), remote, n);
    } else {
      KeptChainNamesTheClient(h, RemoveHopByHop(out), remote, n);
    }
  }

  /** The client resolved from what arrived, and so the Remote-Client-IP extra, differs from the one the access
      record resolves from the outgoing request exactly when the Connection header lists the chain and the client
      is not the peer, or it does not list the chain and a later line surfaces. */
  lemma OutgoingClientAgrees(h: Header, remote: Remote, n: Networks)
    requires WellFormed(n)
    ensures OutgoingClient(h, remote, n) != Client(h, remote, n)
      <==> if ChainIsListed(h) then Client(h, remote, n) != PeerHost(remote) else LaterLineSurfaces(h, remote, n)
  {
    ChainAfterRemoval(h, remote, n);
    PassedOnClientAgrees(h, Sanitize(h, remote, n), remote, n);
  }

  /** An empty line on its own stays malformed. */
  lemma LoneEmptyLine(values: seq<string>, n: Networks)
    requires WellFormed(n) && |values| > 0 && values[0] == ""
    ensures |values| == 1 ==> FirstUntrusted(SplitOn(JoinWith(values, ", "), ','), n) == None
  {
    assert Trim("") == "";
  }

  lemma EmptyThenOther(peer: string, other: string, n: Networks)
    requires WellFormed(n) && n.contains(peer) && n.parses(other) && !n.contains(other)
    ensures Resolve(HostPort(peer), JoinWith(["", other], ", ") + ", " + peer, n) == other
  {
    var chain := JoinWith(["", other], ", ");
    assert ["", other][1..] == [other];
    assert JoinWith([other], ", ") == other;
    assert JoinWith(["", other], ", ") == "" + ", " + other;
    assert chain == "" + [','] + (" " + other);
    AppendedPeerIsSkipped(chain, peer, n);
    SplitConcat("", ',', " " + other);
    SplitNoSeparator(" " + other, ',');
    TrimsToItself(other);
  }

  lemma NothingListed(h: Header)
    requires CONNECTION !in h
    ensures ListedNames(h) == {}
  {
  }

  /** The second family is not empty: with these two lines from a trusted peer, the record names the later line's
      address while the extra names the peer. */
  lemma LaterLinesDisagree(peer: string, other: string, n: Networks)
    requires WellFormed(n) && n.contains(peer) && n.parses(other) && !n.contains(other)
    ensures var h: Header := map[FORWARDED_FOR := ["", other]];
      && Client(h, HostPort(peer), n) == peer
      && OutgoingClient(h, HostPort(peer), n) == other != peer
  {
    FixedKeys();
    FixedConnection();
    var h: Header := map[FORWARDED_FOR := ["", other]];
    NothingListed(h);
    SanitizedHeader(h, HostPort(peer), n);
    ChainAfterRemoval(h, HostPort(peer), n);
    ChainAfterRemoval(Sanitize(h, HostPort(peer), n), HostPort(peer), n);
    OutgoingHeader(RemoveHopByHop(Sanitize(h, HostPort(peer), n)), HostPort(peer));
    EmptyThenOther(peer, other, n);
  }

  /** Nor is the first: a trusted peer names a client and lists the chain, so the extra names that client while
      the record names the peer. */
  lemma ListedChainsDisagree(peer: string, other: string, n: Networks)
    requires WellFormed(n) && n.contains(peer) && n.parses(other) && !n.contains(other)
    ensures var h: Header := map[FORWARDED_FOR := [other], CONNECTION := [FORWARDED_FOR]];
      && Client(h, HostPort(peer), n) == other
      && OutgoingClient(h, HostPort(peer), n) == peer != other
  {
    FixedKeys();
    FixedConnection();
    var h: Header := map[FORWARDED_FOR := [other], CONNECTION := [FORWARDED_FOR]];
    assert ',' !in FORWARDED_FOR && TrimString(FORWARDED_FOR) == FORWARDED_FOR;
    SplitNoSeparator(FORWARDED_FOR, ',');
    assert FORWARDED_FOR in SplitOn(FORWARDED_FOR, ',');
    assert FORWARDED_FOR in h[CONNECTION];
    OneHop(other, n);
    var clean := Sanitize(h, HostPort(peer), n);
    ChainAfterRemoval(h, HostPort(peer), n);
    ChainAfterRemoval(clean, HostPort(peer), n);
    RemovedChainNamesThePeer(RemoveHopByHop(clean), HostPort(peer), n);
  }

  // ---- The duplicate resolver ----

  /** The access log's own copy of the resolver computes the same address. */
  method ResolveForAccessLog(remote: Remote, xff: string, n: Networks) returns (client: string)
    ensures client == Resolve(remote, xff, n)
  {
    var peer := PeerHost(remote);
    if xff == "" || !n.contains(peer) {
      return peer;
    }
    var hops := SplitOn(xff, ',');
    assert hops[..|hops|] == hops;
    for i := |hops| downto 0
      invariant FirstUntrusted(hops[..i], n) == FirstUntrusted(hops, n)
    {
      assert hops[..i + 1][..i] == hops[..i];
      var ip := Trim(hops[i]);
      if !n.parses(ip) {
        return peer;
      } else if !n.contains(ip) {
        return ip;
      }
    }
    client := peer;
  }
}
