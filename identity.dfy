/**
 * The local user's identity of chat.go: the `User` record, its label
 * `hostname@ip: `, and ConfigureUser's choice of address.  The results of
 * os.Hostname, net.Interfaces and Interface.Addrs are inputs.
 */
module Identity {
  import opened Wrappers
  import opened Bytes

  /** `ip` holds the textual form of the address, as the Go code stores it. */
  datatype User = User(hostname: seq<byte>, ip: seq<byte>, server: bool)

  /**
   * An address as the type switch and net.IP see it: `ip` is absent when the
   * address is neither *net.IPNet nor *net.IPAddr, or its IP is nil;
   * `to4` is the text of ip.To4(), absent when it is not an IPv4 address.
   */
  datatype IP = IP(isLoopback: bool, to4: Option<seq<byte>>)
  datatype Addr = Addr(ip: Option<IP>)

  /** A network interface: its up and loopback flags and the result of Addrs(), None when it failed. */
  datatype Interface = Interface(up: bool, loopback: bool, addrs: Option<seq<Addr>>)

  /** The result of os.Hostname: a name, and whether an error came with it. */
  datatype HostLookup = HostLookup(name: seq<byte>, failed: bool)

  /** Which way ConfigureUser returned. */
  datatype Outcome =
    | Chosen(text: seq<byte>)   // an address was adopted
    | InterfacesFailed          // net.Interfaces returned an error
    | AddrsFailed               // Addrs() of a candidate interface returned an error
    | NoNetwork                 // no candidate interface had a usable address

  const Anonymous: seq<byte> := [65, 110, 111, 110, 121, 109, 111, 117, 115]  // "Anonymous"
  const DefaultIP: seq<byte> := [48, 46, 48, 46, 48, 46, 48]                  // "0.0.0.0"

  /**
   * User.String: host name, `@`, address text, then `: ` (fmt.Sprint puts no
   * spaces between string operands).
   */
  function Label(u: User): (r: seq<byte>)
    ensures |r| == |u.hostname| + |u.ip| + 3
    ensures r[..|u.hostname|] == u.hostname && r[|u.hostname|] == AT
    ensures r[|u.hostname| + 1..|r| - 2] == u.ip
    ensures r[|r| - 2..] == [COLON, SPACE]
    ensures LF in r <==> LF in u.hostname || LF in u.ip
  {
    u.hostname + [AT] + u.ip + [COLON, SPACE]
  }

  /** An interface whose addresses are looked at: up and not loopback. */
  predicate Candidate(iface: Interface)
  {
    iface.up && !iface.loopback
  }

  /** The text of an address that may be adopted: a non-nil, non-loopback IPv4 address. */
  function Usable(a: Addr): (r: Option<seq<byte>>)
    ensures r.Some? <==> a.ip.Some? && !a.ip.value.isLoopback && a.ip.value.to4.Some?
    ensures r.Some? ==> r.value == a.ip.value.to4.value
  {
    match a.ip
    case None => None
    case Some(ip) => if ip.isLoopback then None else ip.to4
  }

  /**
   * The inner loop of the address scan: the first usable address in the
   * list, in enumeration order.  It finds none exactly when no address of
   * the list is usable, and what it finds is a usable address of the list.
   */
  function FirstUsable(addrs: seq<Addr>): (r: Option<seq<byte>>)
    ensures r.None? <==> forall j :: 0 <= j < |addrs| ==> Usable(addrs[j]).None?
    ensures r.Some? ==> exists j :: 0 <= j < |addrs| && Usable(addrs[j]) == r
  {
    if addrs == [] then None
    else if Usable(addrs[0]).Some? then Usable(addrs[0])
    else
      assert forall j :: 1 <= j < |addrs| ==> addrs[j] == addrs[1..][j - 1];
      FirstUsable(addrs[1..])
  }

  /**
   * The outer loop of the address scan, once net.Interfaces succeeded: skips
   * interfaces that are down or loopback, stops at the first candidate whose
   * Addrs() fails or that has a usable address, and falls through otherwise.
   * It never reports a failed enumeration.
   */
  function Select(ifaces: seq<Interface>): (r: Outcome)
    ensures r != InterfacesFailed
  {
    if ifaces == [] then NoNetwork
    else if !Candidate(ifaces[0]) then Select(ifaces[1..])
    else match ifaces[0].addrs
      case None => AddrsFailed
      case Some(addrs) =>
        if FirstUsable(addrs).Some? then Chosen(FirstUsable(addrs).value) else Select(ifaces[1..])
  }

  /** Reference for the whole address resolution. */
  function Resolve(ifaces: Option<seq<Interface>>): (r: Outcome)
    ensures r != InterfacesFailed <==> ifaces.Some?
  {
    match ifaces
    case None => InterfacesFailed
    case Some(list) => Select(list)
  }

  /** The address a user ends up with: the chosen one, or "0.0.0.0" after any early return. */
  function AddressOf(o: Outcome): (r: seq<byte>)
  {
    if o.Chosen? then o.text else DefaultIP
  }

  /**
   * ConfigureUser: the host name is the lookup's result even when the lookup
   * failed; the address is that of the first usable address of the first
   * candidate interface that has one, or "0.0.0.0" when interface
   * enumeration fails, when Addrs() fails on a candidate met before that, or
   * when there is none.
   */
  method ConfigureUser(host: HostLookup, ifaces: Option<seq<Interface>>) returns (user: User, outcome: Outcome)
    ensures outcome == Resolve(ifaces)
    ensures user == User(host.name, AddressOf(outcome), false)
  {
    user := User(Anonymous, DefaultIP, false);
    // the error of the lookup is only logged
    user := user.(hostname := host.name);
    if ifaces.None? {
      return user, InterfacesFailed;
    }
    var list := ifaces.value;
    var k := 0;
    while k < |list|
      invariant 0 <= k <= |list|
      invariant Select(list[k..]) == Select(list)
      invariant user == User(host.name, DefaultIP, false)
    {
      assert list[k..][1..] == list[k + 1..];
      var iface := list[k];
      if !iface.up {
        k := k + 1;
        continue;
      }
      if iface.loopback {
        k := k + 1;
        continue;
      }
      if iface.addrs.None? {
        return user, AddrsFailed;
      }
      var found := ScanAddrs(iface.addrs.value);
      if found.Some? {
        user := user.(ip := found.value);
        return user, Chosen(found.value);
      }
      k := k + 1;
    }
    return user, NoNetwork;
  }

  /**
   * The inner loop of ConfigureUser over one interface's addresses: skips
   * nil and loopback addresses and those without an IPv4 form, and returns
   * the IPv4 text of the first address left.
   */
  method ScanAddrs(addrs: seq<Addr>) returns (found: Option<seq<byte>>)
    ensures found == FirstUsable(addrs)
  {
    var j := 0;
    while j < |addrs|
      invariant 0 <= j <= |addrs|
      invariant FirstUsable(addrs[j..]) == FirstUsable(addrs)
    {
      assert addrs[j..][1..] == addrs[j + 1..];
      var addr := addrs[j];
      var ip: Option<IP> := addr.ip;
      if ip.None? || ip.value.isLoopback {
        j := j + 1;
        continue;
      }
      var ip4 := ip.value.to4;
      if ip4.None? {
        j := j + 1;
        continue;  // not an IPv4 address
      }
      return ip4;
    }
    return None;
  }

  // ---------------------------------------------------------------------
  // What the address scan promises.

  /** FirstUsable picks the usable address with no usable address before it. */
  lemma {:induction false} FirstUsableAt(addrs: seq<Addr>, j: int)
    requires 0 <= j < |addrs| && Usable(addrs[j]).Some?
    requires forall i :: 0 <= i < j ==> Usable(addrs[i]).None?
    ensures FirstUsable(addrs) == Usable(addrs[j])
  {
    if j > 0 {
      assert Usable(addrs[0]).None?;
      assert forall i :: 0 <= i < j - 1 ==> addrs[1..][i] == addrs[i + 1];
      FirstUsableAt(addrs[1..], j - 1);
    }
  }

  /** The candidate interfaces before index k were all looked at and offered nothing. */
  ghost predicate Passed(ifaces: seq<Interface>, k: int)
    requires 0 <= k <= |ifaces|
  {
    forall i :: 0 <= i < k && Candidate(ifaces[i]) ==>
      ifaces[i].addrs.Some? && FirstUsable(ifaces[i].addrs.value).None?
  }

  /** Interfaces that were passed over do not affect the outcome. */
  lemma {:induction false} SelectSkip(ifaces: seq<Interface>, k: int)
    requires 0 <= k <= |ifaces| && Passed(ifaces, k)
    ensures Select(ifaces) == Select(ifaces[k..])
  {
    if k > 0 {
      var tail := ifaces[1..];
      assert forall i :: 0 <= i < k - 1 ==> tail[i] == ifaces[i + 1];
      assert Passed(tail, k - 1);
      SelectSkip(tail, k - 1);
      assert tail[k - 1..] == ifaces[k..];
    }
  }

  /**
   * The address adopted is the first usable address of the first candidate
   * interface that has one, provided Addrs() did not fail on an earlier
   * candidate.
   */
  lemma ChosenIsFirst(ifaces: seq<Interface>, k: int, j: int)
    requires 0 <= k < |ifaces| && Passed(ifaces, k) && Candidate(ifaces[k])
    requires ifaces[k].addrs.Some? && 0 <= j < |ifaces[k].addrs.value|
    requires Usable(ifaces[k].addrs.value[j]).Some?
    requires forall i :: 0 <= i < j ==> Usable(ifaces[k].addrs.value[i]).None?
    ensures Select(ifaces) == Chosen(Usable(ifaces[k].addrs.value[j]).value)
  {
    SelectSkip(ifaces, k);
    FirstUsableAt(ifaces[k].addrs.value, j);
    assert ifaces[k..][0] == ifaces[k];
  }

  /**
   * A failing Addrs() on a candidate interface ends the scan with the default
   * address, even when a later interface has a usable one.
   */
  lemma AddrsErrorStops(ifaces: seq<Interface>, k: int)
    requires 0 <= k < |ifaces| && Passed(ifaces, k) && Candidate(ifaces[k])
    requires ifaces[k].addrs.None?
    ensures Select(ifaces) == AddrsFailed
    ensures AddressOf(Select(ifaces)) == DefaultIP
  {
    SelectSkip(ifaces, k);
    assert ifaces[k..][0] == ifaces[k];
  }

  /** The scan finds nothing exactly when every candidate interface was looked at and offered nothing. */
  lemma {:induction false} NoNetworkIffNothingUsable(ifaces: seq<Interface>)
    ensures Select(ifaces) == NoNetwork <==> Passed(ifaces, |ifaces|)
  {
    if Passed(ifaces, |ifaces|) {
      SelectSkip(ifaces, |ifaces|);
      assert ifaces[|ifaces|..] == [];
    }
    if ifaces != [] && Select(ifaces) == NoNetwork {
      var tail := ifaces[1..];
      assert Select(tail) == NoNetwork;
      NoNetworkIffNothingUsable(tail);
      assert forall i :: 1 <= i < |ifaces| ==> ifaces[i] == tail[i - 1];
    }
  }

  /** An adopted address is a usable address of some candidate interface. */
  lemma {:induction false} ChosenComesFromCandidate(ifaces: seq<Interface>)
    requires Select(ifaces).Chosen?
    ensures exists k, j ::
              0 <= k < |ifaces| && Candidate(ifaces[k]) && ifaces[k].addrs.Some? &&
              0 <= j < |ifaces[k].addrs.value| && Usable(ifaces[k].addrs.value[j]) == Some(Select(ifaces).text)
  {
    if Candidate(ifaces[0]) && FirstUsable(ifaces[0].addrs.value).Some? {
      var j :| 0 <= j < |ifaces[0].addrs.value| && Usable(ifaces[0].addrs.value[j]) == FirstUsable(ifaces[0].addrs.value);
      assert Usable(ifaces[0].addrs.value[j]) == Some(Select(ifaces).text);
    } else {
      var tail := ifaces[1..];
      ChosenComesFromCandidate(tail);
      var k, j :| 0 <= k < |tail| && Candidate(tail[k]) && tail[k].addrs.Some? &&
        0 <= j < |tail[k].addrs.value| && Usable(tail[k].addrs.value[j]) == Some(Select(tail).text);
      assert tail[k] == ifaces[k + 1];
    }
  }

  /** Without a usable address on any candidate interface the user keeps the address "0.0.0.0". */
  lemma DefaultUnlessUsable(ifaces: Option<seq<Interface>>)
    requires ifaces.Some? ==> forall k :: 0 <= k < |ifaces.value| && Candidate(ifaces.value[k]) && ifaces.value[k].addrs.Some? ==>
      forall j :: 0 <= j < |ifaces.value[k].addrs.value| ==> Usable(ifaces.value[k].addrs.value[j]).None?
    ensures AddressOf(Resolve(ifaces)) == DefaultIP
  {
    if ifaces.Some? && Select(ifaces.value).Chosen? {
      ChosenComesFromCandidate(ifaces.value);
    }
  }
}
