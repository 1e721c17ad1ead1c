/** What the entries of the proxy configuration trust, bit by bit. */
module ClientCidr {
  import opened Options
  import opened ClientIp
  import opened ClientIpTheorems

  // ---------------------------------------------------------------- numerals

  function Digit(d: nat): char
    requires d < 10
  {
    "0123456789"[d]
  }

  /** The decimal numeral of k. */
  function Decimal(k: nat): (s: string)
    ensures s != ""
  {
    if k < 10 then [Digit(k)] else Decimal(k / 10) + [Digit(k % 10)]
  }

  lemma {:induction false} DecimalIsRead(k: nat)
    ensures Digits(Decimal(k)) == Some(k)
  {
    var s := Decimal(k);
    if k < 10 {
      assert s[..0] == "";
    } else {
      DecimalIsRead(k / 10);
      assert s[..|s| - 1] == Decimal(k / 10);
    }
  }

  lemma {:induction false} OthersAreNot(s: string, i: nat)
    requires i < |s| && !('0' <= s[i] <= '9')
    ensures Digits(s).None?
  {
    if i < |s| - 1 {
      OthersAreNot(s[..|s| - 1], i);
    }
  }

  // ---------------------------------------------------------------- hosts

  /** An address written as an IPv4-mapped one has 80 zeros and 16 ones before the IPv4 address. */
  lemma HostExactly(b: Literal)
    ensures Mapped(b) <==> |b| == 128 && (forall i :: 0 <= i < 80 ==> !b[i]) && (forall i :: 80 <= i < 96 ==> b[i])
    ensures Host(b) == if Mapped(b) then b[96..] else b
  {
  }

  lemma MaskKeepsMapped(b: Literal, k: nat)
    requires k <= |b|
    ensures Mapped(Mask(b, k)) <==> Mapped(b) && 96 <= k
  {
    var m := Mask(b, k);
    assert forall i :: 0 <= i < k ==> m[i] == b[i];
    assert forall i :: k <= i < |b| ==> !m[i];
    if Mapped(m) {
      assert m[95];
    }
  }

  /** The first k bits of an address. */
  predicate SharePrefix(a: Bits, b: Bits, k: nat) {
    |a| == |b| && k <= |b| && a[..k] == b[..k]
  }

  lemma AgreeIsPrefix(a: Bits, b: Bits, k: nat)
    requires |a| == |b| && k <= |b|
    ensures AgreeUpTo(a, b, k) <==> a[..k] == b[..k]
  {
    if a[..k] == b[..k] {
      forall i | 0 <= i < k
        ensures a[i] == b[i]
      {
        assert a[i] == a[..k][i] && b[i] == b[..k][i];
      }
    }
  }

  lemma PlainNetwork(b: Literal, k: nat, a: Literal)
    requires k <= |b| && !(Mapped(b) && 96 <= k)
    ensures Contains(Net(Mask(b, k), k), a) <==> SharePrefix(Host(a), b, k)
  {
    MaskKeepsMapped(b, k);
    var m := Mask(b, k);
    assert m[..k] == b[..k];
    if |Host(a)| == |b| {
      AgreeIsPrefix(Host(a), m, k);
    }
  }

  lemma HostNetworkOf(b: Literal, k: nat, a: Literal)
    requires k <= |b| && Mapped(b) && 96 <= k
    ensures Contains(Net(Mask(b, k), k), a) <==> SharePrefix(Host(a), Host(b), k - 96)
  {
    MaskKeepsMapped(b, k);
    var m := Mask(b, k);
    assert Host(m) == m[96..] && Host(b) == b[96..];
    assert Host(m)[..k - 96] == Host(b)[..k - 96];
    if |Host(a)| == 32 {
      AgreeIsPrefix(Host(a), Host(m), k - 96);
    }
  }

  // ---------------------------------------------------------------- entries

  lemma OneEntry(lib: Lib, entry: string)
    ensures Networks(lib, [entry]) ==
            match ReadEntry(lib, entry)
            case None => Some([])
            case Some(None) => None
            case Some(Some(net)) => Some([net])
  {
    var cidrs := [entry];
    var none: seq<Net> := [];
    assert cidrs[..0] == [];
    NetworksLast(lib, cidrs);
    assert Networks(lib, cidrs[..0]) == Some(none);
    match ReadEntry(lib, entry)
    case Some(Some(net)) => assert none + [net] == [net];
    case _ => assert none + [] == none;
  }

  /** An entry that is an address, a slash and a length is accepted when the length fits the address,
      and trusts exactly the addresses that share so many leading bits with it: as IPv4 addresses
      when it is one, or is written as an IPv4-mapped one with the prefix in its length. */
  lemma CidrTrustsExactly(lib: Lib, entry: string, addr: Addr, k: nat, ip: Addr)
    requires '/' !in addr && lib.parseIP(addr).Some? && k <= |lib.parseIP(addr).value|
    requires Trim(lib.isSpace, entry) == addr + "/" + Decimal(k)
    ensures var b := lib.parseIP(addr).value;
            var nets := Networks(lib, [entry]);
            && nets.Some?
            && (Trusted(lib, nets.value, ip) <==>
                  && lib.parseIP(ip).Some?
                  && if Mapped(b) && 96 <= k then SharePrefix(Host(lib.parseIP(ip).value), b[96..], k - 96)
                     else SharePrefix(Host(lib.parseIP(ip).value), b, k))
  {
    var b := lib.parseIP(addr).value;
    var n := Net(Mask(b, k), k);
    CutAtSlash(addr, Decimal(k));
    DecimalIsRead(k);
    assert '/' in addr + "/" + Decimal(k) by {
      assert (addr + "/" + Decimal(k))[|addr|] == '/';
    }
    OneEntry(lib, entry);
    assert Networks(lib, [entry]) == Some([n]);
    assert [n][0] == n;
    if lib.parseIP(ip).Some? {
      if Mapped(b) && 96 <= k {
        HostNetworkOf(b, k, lib.parseIP(ip).value);
      } else {
        PlainNetwork(b, k, lib.parseIP(ip).value);
      }
    }
  }

  /** It is rejected when the length is missing, is not a number or is more than the address has
      bits, and when the address is none. */
  lemma CidrIsRejected(lib: Lib, entry: string, addr: Addr, length: string)
    requires '/' !in addr && Trim(lib.isSpace, entry) == addr + "/" + length
    requires || lib.parseIP(addr).None? || length == ""
             || (exists i :: 0 <= i < |length| && !('0' <= length[i] <= '9'))
             || (exists k :: |lib.parseIP(addr).value| < k && length == Decimal(k))
    ensures Networks(lib, [entry]).None?
  {
    CutAtSlash(addr, length);
    assert (addr + "/" + length)[|addr|] == '/';
    OneEntry(lib, entry);
    if i :| 0 <= i < |length| && !('0' <= length[i] <= '9') {
      OthersAreNot(length, i);
    } else if lib.parseIP(addr).Some? && length != "" {
      var k :| |lib.parseIP(addr).value| < k && length == Decimal(k);
      DecimalIsRead(k);
    }
  }

  /** So is an entry without a slash that is no address; a blank one is skipped. */
  lemma BareIsRejected(lib: Lib, entry: string)
    requires var c := Trim(lib.isSpace, entry); '/' !in c && lib.parseIP(c).None?
    ensures Networks(lib, [entry]) == if Trim(lib.isSpace, entry) == "" then Some([]) else None
  {
    var c := Trim(lib.isSpace, entry);
    CutAtSlash(c, "128");
    assert c + "/" + "128" == c + "/128";
    OneEntry(lib, entry);
  }

  // ---------------------------------------------------------------- the deployed network

  function Octet(n: nat): (b: Bits)
    ensures |b| == 8
  {
    [n / 128 % 2 == 1, n / 64 % 2 == 1, n / 32 % 2 == 1, n / 16 % 2 == 1,
     n / 8 % 2 == 1, n / 4 % 2 == 1, n / 2 % 2 == 1, n % 2 == 1]
  }

  /** a.b.c.d. */
  function Quad(a: nat, b: nat, c: nat, d: nat): Literal {
    Octet(a) + Octet(b) + Octet(c) + Octet(d)
  }

  lemma FirstOctets(w: Bits, x: Bits, y: Bits, z: Bits, w': Bits, x': Bits, y': Bits, z': Bits)
    requires |w| == |x| == |y| == |z| == 8 && |w'| == |x'| == |y'| == |z'| == 8
    ensures SharePrefix(w + x + y + z, w' + x' + y' + z', 16) <==> w == w' && x == x'
  {
    var p, q := w + x + y + z, w' + x' + y' + z';
    assert p[..16] == w + x && q[..16] == w' + x';
    assert (w + x)[..8] == w && (w' + x')[..8] == w' && (w + x)[8..] == x && (w' + x')[8..] == x';
  }

  lemma OctetsDiffer()
    ensures Octet(245) != Octet(244)
  {
    assert Octet(245)[7] && !Octet(244)[7];
  }

  lemma Sixteen()
    ensures "10.244.0.0/16" == "10.244.0.0" + "/" + Decimal(16)
  {
    assert Decimal(1) == "1";
    assert Decimal(16) == "16";
  }

  lemma PodNetworkExactly(lib: Lib, entry: string, ip: Addr, a: nat, b: nat, c: nat, d: nat)
    requires entry == "10.244.0.0/16" && Trim(lib.isSpace, entry) == entry
    requires lib.parseIP("10.244.0.0") == Some(Quad(10, 244, 0, 0)) && lib.parseIP(ip) == Some(Quad(a, b, c, d))
    ensures var nets := Networks(lib, [entry]);
            nets.Some? && (Trusted(lib, nets.value, ip) <==> Octet(a) == Octet(10) && Octet(b) == Octet(244))
  {
    Sixteen();
    CidrTrustsExactly(lib, entry, "10.244.0.0", 16, ip);
    FirstOctets(Octet(a), Octet(b), Octet(c), Octet(d), Octet(10), Octet(244), Octet(0), Octet(0));
  }

  /** 10.244.0.0/16 trusts every 10.244.c.d, and not 10.245.c.d. */
  lemma PodNetwork(lib: Lib, entry: string, pod: Addr, other: Addr, c: nat, d: nat)
    requires entry == "10.244.0.0/16" && Trim(lib.isSpace, entry) == entry
    requires lib.parseIP("10.244.0.0") == Some(Quad(10, 244, 0, 0))
    requires lib.parseIP(pod) == Some(Quad(10, 244, c, d)) && lib.parseIP(other) == Some(Quad(10, 245, c, d))
    ensures var nets := Networks(lib, [entry]);
            nets.Some? && Trusted(lib, nets.value, pod) && !Trusted(lib, nets.value, other)
  {
    PodNetworkExactly(lib, entry, pod, 10, 244, c, d);
    PodNetworkExactly(lib, entry, other, 10, 245, c, d);
    OctetsDiffer();
  }
}
