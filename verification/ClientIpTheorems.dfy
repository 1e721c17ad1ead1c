/** What is promised of the forwarded-address walk: which entry it picks, and exactly when entries
    a client puts in front cannot change that. */
module ClientIpTheorems {
  import opened Options
  import opened ClientIp

  // ---------------------------------------------------------------- which entry

  /** An entry as the walk sees it. */
  function Entry(lib: Lib, part: string): Addr {
    Trim(lib.isSpace, part)
  }

  /** The walk passes an entry only if it is a trusted proxy's address. */
  predicate Stops(lib: Lib, nets: seq<Net>, part: string) {
    !Trusted(lib, nets, Entry(lib, part))
  }

  /** What an entry that stops the walk makes of it: the entry if it is an address, the peer if it
      is not. */
  function Taken(lib: Lib, peer: Addr, part: string): Addr {
    if lib.parseIP(Entry(lib, part)).Some? then Entry(lib, part) else peer
  }

  lemma WalkLast(lib: Lib, nets: seq<Net>, peer: Addr, parts: seq<string>)
    requires parts != []
    ensures var last := parts[|parts| - 1];
            Walk(lib, nets, peer, parts) ==
            if Stops(lib, nets, last) then Some(Taken(lib, peer, last))
            else Walk(lib, nets, peer, parts[..|parts| - 1])
  {
  }

  /** The right-most entry that is not a trusted proxy's address: if it parses it is the client,
      otherwise the peer is. */
  lemma {:induction false} WalkPicks(lib: Lib, nets: seq<Net>, peer: Addr, parts: seq<string>, i: nat)
    requires i < |parts| && Stops(lib, nets, parts[i])
    requires forall j :: i < j < |parts| ==> !Stops(lib, nets, parts[j])
    ensures Walk(lib, nets, peer, parts) == Some(Taken(lib, peer, parts[i]))
  {
    WalkLast(lib, nets, peer, parts);
    if i < |parts| - 1 {
      WalkPicks(lib, nets, peer, parts[..|parts| - 1], i);
    }
  }

  ghost predicate AllPass(lib: Lib, nets: seq<Net>, parts: seq<string>) {
    forall i :: 0 <= i < |parts| ==> !Stops(lib, nets, parts[i])
  }

  lemma AllPassPrefix(lib: Lib, nets: seq<Net>, parts: seq<string>, n: nat)
    requires n <= |parts| && AllPass(lib, nets, parts)
    ensures AllPass(lib, nets, parts[..n])
  {
    forall i | 0 <= i < n
      ensures !Stops(lib, nets, parts[..n][i])
    {
      assert parts[..n][i] == parts[i];
    }
  }

  lemma AllPassSnoc(lib: Lib, nets: seq<Net>, parts: seq<string>, n: nat)
    requires |parts| == n + 1 && AllPass(lib, nets, parts[..n]) && !Stops(lib, nets, parts[n])
    ensures AllPass(lib, nets, parts)
  {
    forall i | 0 <= i < |parts|
      ensures !Stops(lib, nets, parts[i])
    {
      if i < n {
        assert parts[i] == parts[..n][i];
      }
    }
  }

  lemma {:induction false} WalkPassesAll(lib: Lib, nets: seq<Net>, peer: Addr, parts: seq<string>)
    ensures Walk(lib, nets, peer, parts).None? <==> AllPass(lib, nets, parts)
  {
    if parts != [] {
      var n := |parts| - 1;
      WalkLast(lib, nets, peer, parts);
      WalkPassesAll(lib, nets, peer, parts[..n]);
      if AllPass(lib, nets, parts) {
        AllPassPrefix(lib, nets, parts, n);
      }
      if Walk(lib, nets, peer, parts).None? {
        AllPassSnoc(lib, nets, parts, n);
      }
    }
  }

  /** Entry i is the right-most that stops the walk. */
  ghost predicate LastStop(lib: Lib, nets: seq<Net>, parts: seq<string>, i: nat) {
    i < |parts| && Stops(lib, nets, parts[i]) && forall j :: i < j < |parts| ==> !Stops(lib, nets, parts[j])
  }

  /** clientIP, case by case. An untrusted peer, or no header: the peer. Otherwise the right-most
      entry that is not a trusted proxy's, if it is an address; the peer, if it is not; and the
      outermost entry when every one is a trusted proxy's. */
  lemma ClientContract(lib: Lib, nets: seq<Net>, peer: Addr, xff: string)
    ensures !Trusted(lib, nets, peer) || xff == "" ==> Client(lib, nets, peer, xff) == peer
    ensures Trusted(lib, nets, peer) && xff != "" ==>
              forall i: nat :: LastStop(lib, nets, Split(xff), i) ==>
                Client(lib, nets, peer, xff) == Taken(lib, peer, Split(xff)[i])
    ensures Trusted(lib, nets, peer) && xff != "" && AllPass(lib, nets, Split(xff)) ==>
              Client(lib, nets, peer, xff) == Entry(lib, Split(xff)[0])
  {
    WalkPassesAll(lib, nets, peer, Split(xff));
    if Trusted(lib, nets, peer) && xff != "" {
      forall i: nat | LastStop(lib, nets, Split(xff), i)
        ensures Client(lib, nets, peer, xff) == Taken(lib, peer, Split(xff)[i])
      {
        WalkPicks(lib, nets, peer, Split(xff), i);
      }
    }
  }

  /** With no trusted proxies the header is never believed. */
  lemma NoProxiesNoHeader(lib: Lib, peer: Addr, xff: string)
    ensures Client(lib, [], peer, xff) == peer
  {
  }

  // ---------------------------------------------------------------- what the header is taken apart into

  function Join(parts: seq<string>): string
    requires parts != []
  {
    if |parts| == 1 then parts[0] else parts[0] + "," + Join(parts[1..])
  }

  /** Split is what strings.Split promises: joining undoes it, and no part holds a comma. */
  lemma {:induction false} SplitJoins(s: string)
    ensures Join(Split(s)) == s
    ensures forall i :: 0 <= i < |Split(s)| ==> ',' !in Split(s)[i]
  {
    if s != [] {
      SplitJoins(s[1..]);
      var rest, parts := Split(s[1..]), Split(s);
      if s[0] == ',' {
        assert parts[1..] == rest;
        assert s == "," + s[1..];
      } else {
        assert parts[1..] == rest[1..];
        assert s == [s[0]] + s[1..];
        if |rest| > 1 {
          assert Join(parts) == [s[0]] + (rest[0] + "," + Join(rest[1..]));
        }
      }
    }
  }

  lemma {:induction false} TrimLeftCuts(isSpace: char -> bool, s: string)
    ensures var r := TrimLeft(isSpace, s);
            && r == s[|s| - |r|..] && (r != [] ==> !isSpace(r[0]))
            && forall i :: 0 <= i < |s| - |r| ==> isSpace(s[i])
  {
    if s != [] && isSpace(s[0]) {
      TrimLeftCuts(isSpace, s[1..]);
    }
  }

  lemma {:induction false} TrimRightCuts(isSpace: char -> bool, s: string)
    ensures var r := TrimRight(isSpace, s);
            && r == s[..|r|] && (r != [] ==> !isSpace(r[|r| - 1]))
            && forall i :: |r| <= i < |s| ==> isSpace(s[i])
  {
    if s != [] && isSpace(s[|s| - 1]) {
      TrimRightCuts(isSpace, s[..|s| - 1]);
    }
  }

  lemma NothingToTrim(isSpace: char -> bool, s: string)
    requires s != [] ==> !isSpace(s[0]) && !isSpace(s[|s| - 1])
    ensures Trim(isSpace, s) == s
  {
  }

  /** Trim cuts white space off both ends and nothing else, and leaves none there. */
  lemma TrimCuts(isSpace: char -> bool, s: string) returns (a: nat, b: nat)
    ensures a <= b <= |s| && Trim(isSpace, s) == s[a..b]
    ensures forall i :: 0 <= i < a || b <= i < |s| ==> isSpace(s[i])
    ensures Trim(isSpace, s[a..b]) == s[a..b]
  {
    var left := TrimLeft(isSpace, s);
    var r := TrimRight(isSpace, left);
    TrimLeftCuts(isSpace, s);
    TrimRightCuts(isSpace, left);
    a := |s| - |left|;
    b := a + |r|;
    assert r == s[a..b];
    forall i | b <= i < |s|
      ensures isSpace(s[i])
    {
      assert s[i] == left[i - a];
    }
    NothingToTrim(isSpace, r);
  }

  /** Splitting a header that was put together from two splits it where it was joined. */
  lemma {:induction false} SplitPrepended(p: string, xff: string)
    ensures Split(p + "," + xff) == Split(p) + Split(xff)
  {
    if p == [] {
      var s := p + "," + xff;
      assert s[0] == ',' && s[1..] == xff;
    } else {
      var s := p + "," + xff;
      assert s[0] == p[0] && s[1..] == p[1..] + "," + xff;
      SplitPrepended(p[1..], xff);
    }
  }

  lemma {:induction false} NoCommas(s: string)
    requires ',' !in s
    ensures Split(s) == [s]
  {
    if s != [] {
      NoCommas(s[1..]);
      assert [s[0]] + s[1..] == s;
    }
  }

  /** Entries to the left of one that stops the walk are never looked at. */
  lemma {:induction false} WalkIgnoresFront(
    lib: Lib, nets: seq<Net>, peer: Addr, front: seq<string>, parts: seq<string>)
    ensures Walk(lib, nets, peer, front + parts) ==
            if Walk(lib, nets, peer, parts).Some? then Walk(lib, nets, peer, parts) else Walk(lib, nets, peer, front)
  {
    if parts == [] {
      assert front + parts == front;
    } else {
      var n := |parts| - 1;
      assert (front + parts)[..|front + parts| - 1] == front + parts[..n];
      WalkIgnoresFront(lib, nets, peer, front, parts[..n]);
    }
  }

  // ---------------------------------------------------------------- what comes of the header

  /** An address written without white space around it and without commas. */
  predicate Plain(lib: Lib, u: Addr) {
    ',' !in u && Trim(lib.isSpace, u) == u && lib.parseIP(u).Some?
  }

  lemma EntryIsPlain(lib: Lib, xff: string, i: nat)
    requires i < |Split(xff)| && lib.parseIP(Entry(lib, Split(xff)[i])).Some?
    ensures Plain(lib, Entry(lib, Split(xff)[i]))
  {
    SplitJoins(xff);
    var a, b := TrimCuts(lib.isSpace, Split(xff)[i]);
  }

  lemma {:induction false} WalkTakesAnEntry(lib: Lib, nets: seq<Net>, peer: Addr, parts: seq<string>)
    returns (i: nat)
    requires Walk(lib, nets, peer, parts).Some?
    ensures i < |parts| && Walk(lib, nets, peer, parts).value == Taken(lib, peer, parts[i])
  {
    WalkLast(lib, nets, peer, parts);
    i := |parts| - 1;
    if !Stops(lib, nets, parts[i]) {
      i := WalkTakesAnEntry(lib, nets, peer, parts[..i]);
    }
  }

  /** What clientIP takes from the header is always an address, and written plainly, whatever the
      header: a client cannot have another kind of key. */
  lemma HeaderGivesPlainAddresses(lib: Lib, nets: seq<Net>, peer: Addr, xff: string)
    ensures Client(lib, nets, peer, xff) == peer || Plain(lib, Client(lib, nets, peer, xff))
  {
    if Trusted(lib, nets, peer) && xff != "" {
      var parts := Split(xff);
      WalkPassesAll(lib, nets, peer, parts);
      if Walk(lib, nets, peer, parts).Some? {
        var i := WalkTakesAnEntry(lib, nets, peer, parts);
        if Taken(lib, peer, parts[i]) != peer {
          EntryIsPlain(lib, xff, i);
        }
      } else {
        assert !Stops(lib, nets, parts[0]);
        EntryIsPlain(lib, xff, 0);
      }
    }
  }

  // ---------------------------------------------------------------- prepended entries

  /** Prepending comma-separated entries, as a client can, changes nothing. */
  ghost predicate PrependingIsFutile(lib: Lib, nets: seq<Net>, peer: Addr, xff: string) {
    forall p :: Client(lib, nets, peer, p + "," + xff) == Client(lib, nets, peer, xff)
  }

  /** What a client prepends is ignored if the proxies added some entry that is not a trusted
      proxy's: its own address, or something malformed. */
  lemma PrependingIsIgnored(lib: Lib, nets: seq<Net>, peer: Addr, xff: string)
    requires xff != "" && !AllPass(lib, nets, Split(xff))
    ensures PrependingIsFutile(lib, nets, peer, xff)
  {
    WalkPassesAll(lib, nets, peer, Split(xff));
    forall p
      ensures Client(lib, nets, peer, p + "," + xff) == Client(lib, nets, peer, xff)
    {
      SplitPrepended(p, xff);
      WalkIgnoresFront(lib, nets, peer, Split(p), Split(xff));
    }
  }

  /** When every entry is a trusted proxy's, whatever address is put in front is the result. */
  lemma PrependedIsTaken(lib: Lib, nets: seq<Net>, peer: Addr, xff: string, u: Addr)
    requires Trusted(lib, nets, peer) && AllPass(lib, nets, Split(xff)) && Plain(lib, u)
    ensures Client(lib, nets, peer, u + "," + xff) == u
  {
    SplitPrepended(u, xff);
    NoCommas(u);
    var one := [u];
    WalkPassesAll(lib, nets, peer, Split(xff));
    WalkIgnoresFront(lib, nets, peer, one, Split(xff));
    assert one[|one| - 1] == u && one[..0] == [];
    assert Split(u + "," + xff)[0] == u;
  }

  /** So it is ignored if and only if there is such an entry. (Behind a trusted peer, with a header,
      and when there is some other address than the outermost one to put in front.) */
  lemma PrependingExactly(lib: Lib, nets: seq<Net>, peer: Addr, xff: string, u: Addr)
    requires Trusted(lib, nets, peer) && xff != ""
    requires Plain(lib, u) && u != Entry(lib, Split(xff)[0])
    ensures PrependingIsFutile(lib, nets, peer, xff) <==> !AllPass(lib, nets, Split(xff))
  {
    if AllPass(lib, nets, Split(xff)) {
      PrependedIsTaken(lib, nets, peer, xff, u);
      WalkPassesAll(lib, nets, peer, Split(xff));
      assert Client(lib, nets, peer, u + "," + xff) != Client(lib, nets, peer, xff);
    } else {
      PrependingIsIgnored(lib, nets, peer, xff);
    }
  }

  // ---------------------------------------------------------------- the configuration

  lemma {:induction false} CutAtSlash(s: string, t: string)
    requires '/' !in s
    ensures Cut(s + "/" + t) == Some((s, t))
  {
    var all := s + "/" + t;
    if s == [] {
      assert all[1..] == t;
    } else {
      assert all[0] == s[0] && all[1..] == s[1..] + "/" + t;
      CutAtSlash(s[1..], t);
      assert [s[0]] + s[1..] == s;
    }
  }

  lemma Suffixes()
    ensures Digits("32") == Some(32) && Digits("128") == Some(128)
  {
    assert "32"[..1] == "3" && "3"[..0] == "";
    assert "128"[..2] == "12" && "12"[..1] == "1" && "1"[..0] == "";
    assert Digits("3") == Some(3);
    assert Digits("1") == Some(1) && Digits("12") == Some(12);
  }

  /** The network a bare address is read as: `/32` or `/128` by what it stands for, on an address as
      wide as it is written. */
  lemma BareNetwork(lib: Lib, entry: string)
    requires entry != "" && Trim(lib.isSpace, entry) == entry && '/' !in entry && lib.parseIP(entry).Some?
    ensures var b := lib.parseIP(entry).value;
            Networks(lib, [entry]) == Some([Net(Mask(b, |Host(b)|), |Host(b)|)])
  {
    var b := lib.parseIP(entry).value;
    Suffixes();
    var suffix := if |Host(b)| == 32 then "32" else "128";
    CutAtSlash(entry, suffix);
    assert AsCidr(lib, entry) == entry + "/" + suffix;
    var cidrs := [entry];
    assert cidrs[..0] == [];
    assert Networks(lib, cidrs[..0]) == Some([]);
    assert [] + [Net(Mask(b, |Host(b)|), |Host(b)|)] == [Net(Mask(b, |Host(b)|), |Host(b)|)];
  }

  predicate SameHost(lib: Lib, ip: Addr, entry: Addr) {
    lib.parseIP(ip).Some? && lib.parseIP(entry).Some? && Host(lib.parseIP(ip).value) == Host(lib.parseIP(entry).value)
  }

  lemma HostNetwork(b: Literal, a: Literal)
    requires !Mapped(b)
    ensures Contains(Net(Mask(b, |Host(b)|), |Host(b)|), a) <==> Host(a) == b
  {
    assert Mask(b, |b|) == b;
  }

  /** The network ::/32. */
  predicate Zeros(a: Literal) {
    |Host(a)| == 128 && forall i :: 0 <= i < 32 ==> !a[i]
  }

  lemma MappedNetwork(b: Literal, a: Literal)
    requires Mapped(b)
    ensures Contains(Net(Mask(b, 32), 32), a) <==> Zeros(a)
  {
    var m := Mask(b, 32);
    assert !m[80];
    assert forall i :: 0 <= i < 32 ==> m[i] == b[i] == false;
    if |Host(a)| == 128 {
      assert Host(a) == a;
    }
  }

  /** A bare address in the configuration trusts exactly that host, as is said of it, if and only if
      it is not written as an IPv4-mapped IPv6 address: such a one gets the suffix of an IPv4
      address and the mask of an IPv6 one. */
  lemma BareAddressExactly(lib: Lib, entry: string)
    requires entry != "" && Trim(lib.isSpace, entry) == entry && '/' !in entry && lib.parseIP(entry).Some?
    ensures var nets := Networks(lib, [entry]);
            && nets.Some?
            && ((forall ip :: Trusted(lib, nets.value, ip) <==> SameHost(lib, ip, entry))
                <==> !Mapped(lib.parseIP(entry).value))
  {
    var b := lib.parseIP(entry).value;
    var n := Net(Mask(b, |Host(b)|), |Host(b)|);
    BareNetwork(lib, entry);
    if Mapped(b) {
      MappedNetwork(b, b);
      assert SameHost(lib, entry, entry) && !Trusted(lib, [n], entry);
    } else {
      forall ip
        ensures Trusted(lib, [n], ip) <==> SameHost(lib, ip, entry)
      {
        if lib.parseIP(ip).Some? {
          HostNetwork(b, lib.parseIP(ip).value);
          assert [n][0] == n;
        }
      }
    }
  }

  /** For instance: `::ffff:10.0.0.1` trusts 10.0.0.1 neither way it is written, but the loopback
      address. */
  lemma MappedEntryMisses(lib: Lib, entry: string, mapped: Literal, loopback: Literal)
    requires entry == "::ffff:10.0.0.1" && Trim(lib.isSpace, entry) == entry
    requires lib.parseIP(entry) == Some(mapped) && Mapped(mapped)
    requires lib.parseIP("10.0.0.1") == Some(Host(mapped))
    requires lib.parseIP("::1") == Some(loopback) && |loopback| == 128 && forall i :: 0 <= i < 127 ==> !loopback[i]
    ensures var nets := Networks(lib, [entry]);
            && nets.Some?
            && !Trusted(lib, nets.value, entry) && !Trusted(lib, nets.value, "10.0.0.1")
            && Trusted(lib, nets.value, "::1")
  {
    var n := Net(Mask(mapped, 32), 32);
    BareNetwork(lib, entry);
    MappedNetwork(mapped, mapped);
    MappedNetwork(mapped, Host(mapped));
    assert !loopback[80];
    MappedNetwork(mapped, loopback);
    assert [n][0] == n;
  }

  lemma NetworksLast(lib: Lib, cidrs: seq<string>)
    requires cidrs != []
    ensures var before, last := Networks(lib, cidrs[..|cidrs| - 1]), ReadEntry(lib, cidrs[|cidrs| - 1]);
            Networks(lib, cidrs) ==
            if before.None? || last == Some(None) then None
            else Some(before.value + if last.Some? then [last.value.value] else [])
  {
    var before := Networks(lib, cidrs[..|cidrs| - 1]);
    if before.Some? {
      assert before.value + [] == before.value;
    }
  }

  /** A configuration is accepted if and only if each of its entries is blank or a network. */
  lemma {:induction false} AcceptedExactly(lib: Lib, cidrs: seq<string>)
    ensures Networks(lib, cidrs).Some? <==>
            forall i :: 0 <= i < |cidrs| ==> ReadEntry(lib, cidrs[i]) != Some(None)
  {
    if cidrs != [] {
      var m := |cidrs| - 1;
      NetworksLast(lib, cidrs);
      AcceptedExactly(lib, cidrs[..m]);
      assert forall i :: 0 <= i < m ==> cidrs[..m][i] == cidrs[i];
    }
  }

  ghost predicate Lists(lib: Lib, cidrs: seq<string>, n: Net) {
    exists i :: 0 <= i < |cidrs| && ReadEntry(lib, cidrs[i]) == Some(Some(n))
  }

  lemma ListsLast(lib: Lib, cidrs: seq<string>, n: Net)
    requires cidrs != []
    ensures var m := |cidrs| - 1;
            Lists(lib, cidrs, n) <==> Lists(lib, cidrs[..m], n) || ReadEntry(lib, cidrs[m]) == Some(Some(n))
  {
    var m := |cidrs| - 1;
    if i :| 0 <= i < m && ReadEntry(lib, cidrs[..m][i]) == Some(Some(n)) {
      assert cidrs[i] == cidrs[..m][i];
    }
    if i :| 0 <= i < m && ReadEntry(lib, cidrs[i]) == Some(Some(n)) {
      assert cidrs[..m][i] == cidrs[i];
    }
  }

  lemma InSnoc<T>(s: seq<T>, more: seq<T>, x: T)
    ensures x in s + more <==> x in s || x in more
  {
  }

  /** Its networks are exactly those of its entries. */
  lemma {:induction false} NetworksAreTheEntries(lib: Lib, cidrs: seq<string>, n: Net)
    requires Networks(lib, cidrs).Some?
    ensures n in Networks(lib, cidrs).value <==> Lists(lib, cidrs, n)
  {
    if cidrs != [] {
      var m := |cidrs| - 1;
      NetworksLast(lib, cidrs);
      NetworksAreTheEntries(lib, cidrs[..m], n);
      ListsLast(lib, cidrs, n);
      var last := ReadEntry(lib, cidrs[m]);
      InSnoc(Networks(lib, cidrs[..m]).value, if last.Some? then [last.value.value] else [], n);
    }
  }
}
