/** The forwarded-address walk of clientip.go. Reading an address from its text is the standard
    library's and enters as a function; splitting, trimming, CIDRs and network membership are
    modelled as they are. */
module ClientIp {
  import opened Options

  type Addr = string

  /** An address, most significant bit first. */
  type Bits = seq<bool>

  /** As it is written: 32 bits of an IPv4 literal, 128 of an IPv6 one, IPv4-mapped ones included. */
  type Literal = b: Bits | |b| == 32 || |b| == 128 witness seq(32, i => false)

  /** netip.ParseAddr for addresses without a zone, which net.ParseIP and net.ParseCIDR both read
      with; and the white space strings.TrimSpace removes. */
  datatype Lib = Lib(parseIP: Addr -> Option<Literal>, isSpace: char -> bool)

  /** In ::ffff:0:0/96. */
  predicate Mapped(b: Literal) {
    |b| == 128 && forall i :: 0 <= i < 96 ==> b[i] == (80 <= i)
  }

  /** The address itself: IPv4 when it is written as an IPv4-mapped one too, as by IP.To4. */
  function Host(b: Literal): Literal {
    if Mapped(b) then b[96..] else b
  }

  /** net.IPNet: the masked address and the length of its mask. */
  datatype Net = Net(ip: Literal, ones: nat)

  predicate AgreeUpTo(a: Bits, b: Bits, k: int)
    requires |a| == |b|
  {
    forall i :: 0 <= i < |a| && i < k ==> a[i] == b[i]
  }

  /** IPNet.Contains, which takes both addresses to IPv4 when they are; a mask then loses its
      first 96 bits. */
  predicate Contains(n: Net, addr: Literal) {
    && |Host(addr)| == |Host(n.ip)|
    && AgreeUpTo(Host(addr), Host(n.ip), n.ones - (|n.ip| - |Host(n.ip)|))
  }

  // ---------------------------------------------------------------- strings

  function TrimLeft(isSpace: char -> bool, s: string): (r: string)
    ensures |r| <= |s|
  {
    if s != [] && isSpace(s[0]) then TrimLeft(isSpace, s[1..]) else s
  }

  function TrimRight(isSpace: char -> bool, s: string): (r: string)
    ensures |r| <= |s|
  {
    if s != [] && isSpace(s[|s| - 1]) then TrimRight(isSpace, s[..|s| - 1]) else s
  }

  function Trim(isSpace: char -> bool, s: string): string {
    TrimRight(isSpace, TrimLeft(isSpace, s))
  }

  /** strings.Split on a comma: the empty string has one, empty, part. */
  function Split(s: string): (parts: seq<string>)
    ensures |parts| > 0
  {
    if s == [] then [""]
    else
      var rest := Split(s[1..]);
      if s[0] == ',' then [""] + rest else [[s[0]] + rest[0]] + rest[1..]
  }

  // ---------------------------------------------------------------- the trusted networks

  /** strings.Cut at the first slash. */
  function Cut(s: string): Option<(string, string)> {
    if s == [] then None
    else if s[0] == '/' then Some(("", s[1..]))
    else
      match Cut(s[1..])
      case None => None
      case Some(parts) => Some(([s[0]] + parts.0, parts.1))
  }

  function Digits(s: string): Option<nat> {
    if s == [] then Some(0)
    else
      var c := s[|s| - 1];
      match Digits(s[..|s| - 1])
      case Some(n) => if '0' <= c <= '9' then Some(10 * n + (c as int - '0' as int)) else None
      case None => None
  }

  function Mask(b: Literal, ones: nat): Literal
    requires ones <= |b|
  {
    b[..ones] + seq(|b| - ones, i => false)
  }

  /** net.ParseCIDR: the mask is as wide as the address is written. */
  function ParseCIDR(lib: Lib, s: string): Option<Net> {
    match Cut(s)
    case None => None
    case Some((addr, mask)) =>
      var b, ones := lib.parseIP(addr), Digits(mask);
      if b.None? || mask == "" || ones.None? || |b.value| < ones.value then None
      else Some(Net(Mask(b.value, ones.value), ones.value))
  }

  /** The CIDR an entry of the configuration is read as. */
  function AsCidr(lib: Lib, entry: string): string {
    if '/' in entry then entry
    else if lib.parseIP(entry).Some? && |Host(lib.parseIP(entry).value)| == 32 then entry + "/32"
    else entry + "/128"
  }

  /** What one entry of a configuration is read as; None for a blank one. */
  function ReadEntry(lib: Lib, entry: string): Option<Option<Net>> {
    var c := Trim(lib.isSpace, entry);
    if c == "" then None else Some(ParseCIDR(lib, AsCidr(lib, c)))
  }

  /** The networks a configuration lists, or None if one of its entries is invalid. */
  function Networks(lib: Lib, cidrs: seq<string>): Option<seq<Net>> {
    if cidrs == [] then Some([])
    else
      var before := Networks(lib, cidrs[..|cidrs| - 1]);
      match ReadEntry(lib, cidrs[|cidrs| - 1])
      case None => before
      case Some(None) => None
      case Some(Some(net)) => if before.Some? then Some(before.value + [net]) else None
  }

  class TrustedProxies {
    const lib: Lib
    var nets: seq<Net>

    constructor (lib: Lib)
      ensures this.lib == lib && nets == []
    {
      this.lib := lib;
      nets := [];
    }

    /** All or nothing: an invalid entry leaves the networks installed before. */
    method SetTrustedProxies(cidrs: seq<string>) returns (ok: bool)
      modifies this
      ensures ok <==> Networks(lib, cidrs).Some?
      ensures nets == if ok then Networks(lib, cidrs).value else old(nets)
    {
      var found := [];
      for i := 0 to |cidrs|
        invariant Networks(lib, cidrs[..i]) == Some(found)
        invariant nets == old(nets)
      {
        assert cidrs[..i + 1][..i] == cidrs[..i];
        var c := Trim(lib.isSpace, cidrs[i]);
        if c == "" {
          continue;
        }
        if '/' !in c {
          var ip := lib.parseIP(c);
          if ip.Some? && |Host(ip.value)| == 32 {
            c := c + "/32";
          } else {
            c := c + "/128";
          }
        }
        var net := ParseCIDR(lib, c);
        if net.None? {
          InvalidStays(lib, cidrs, i + 1);
          return false;
        }
        found := found + [net.value];
      }
      assert cidrs[..|cidrs|] == cidrs;
      nets := found;
      return true;
    }

    method IsTrusted(ip: Addr) returns (trusted: bool)
      ensures trusted <==> Trusted(lib, nets, ip)
    {
      var parsed := lib.parseIP(ip);
      if parsed.None? {
        return false;
      }
      for i := 0 to |nets|
        invariant forall j :: 0 <= j < i ==> !Contains(nets[j], parsed.value)
      {
        if Contains(nets[i], parsed.value) {
          assert nets[i] in nets;
          return true;
        }
      }
      return false;
    }

    /** `peer` is the TCP peer without its port. */
    method ClientIP(peer: Addr, xff: string) returns (client: Addr)
      ensures client == Client(lib, nets, peer, xff)
    {
      var trustedPeer := IsTrusted(peer);
      if !trustedPeer {
        return peer;
      }
      if xff == "" {
        return peer;
      }
      var parts := Split(xff);
      var i := |parts|;
      assert parts[..i] == parts;
      while i > 0
        invariant 0 <= i <= |parts|
        invariant Walk(lib, nets, peer, parts) == Walk(lib, nets, peer, parts[..i])
      {
        assert parts[..i][..i - 1] == parts[..i - 1];
        i := i - 1;
        var ip := Trim(lib.isSpace, parts[i]);
        if lib.parseIP(ip) == None {
          return peer;
        }
        var hop := IsTrusted(ip);
        if !hop {
          return ip;
        }
      }
      return Trim(lib.isSpace, parts[0]);
    }
  }

  lemma {:induction false} InvalidStays(lib: Lib, cidrs: seq<string>, i: nat)
    requires i <= |cidrs| && Networks(lib, cidrs[..i]).None?
    ensures Networks(lib, cidrs).None?
    decreases |cidrs|
  {
    if i == |cidrs| {
      assert cidrs[..i] == cidrs;
    } else {
      var most := cidrs[..|cidrs| - 1];
      assert most[..i] == cidrs[..i];
      InvalidStays(lib, most, i);
    }
  }

  predicate Trusted(lib: Lib, nets: seq<Net>, ip: Addr) {
    lib.parseIP(ip).Some? && exists i :: 0 <= i < |nets| && Contains(nets[i], lib.parseIP(ip).value)
  }

  /** The walk from the right: None when every entry is a trusted proxy. */
  function Walk(lib: Lib, nets: seq<Net>, peer: Addr, parts: seq<string>): Option<Addr> {
    if parts == [] then None
    else
      var ip := Trim(lib.isSpace, parts[|parts| - 1]);
      if lib.parseIP(ip).None? then Some(peer)
      else if !Trusted(lib, nets, ip) then Some(ip)
      else Walk(lib, nets, peer, parts[..|parts| - 1])
  }

  function Client(lib: Lib, nets: seq<Net>, peer: Addr, xff: string): Addr {
    if !Trusted(lib, nets, peer) || xff == "" then peer
    else
      match Walk(lib, nets, peer, Split(xff))
      case Some(client) => client
      case None => Trim(lib.isSpace, Split(xff)[0])
  }
}
