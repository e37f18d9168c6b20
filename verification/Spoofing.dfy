/**
  The spoofing scan: packets are counted per protocol and source, sources that reach the
  threshold are logged, and the backend reads the log into a map from sources to protocols.
*/
module Spoofing {
  import opened Options
  import opened LogText
  import opened ScanPipeline

  const MAX_CONNS := 5

  datatype Protocol = Telnet | FTP | SSH | RDP {
    function Name(): string {
      match this
      case Telnet => "Telnet"
      case FTP => "FTP"
      case SSH => "SSH"
      case RDP => "RDP"
    }
  }

  // A sniffed packet: the layers it has, whether its destination is this machine, and the
  // two fields that are read.
  datatype Packet = Packet(ether: bool, toUs: bool, tcp: bool, ip: bool, dport: int, src: string)

  // The ports of each protocol.
  function PortsOf(proto: Protocol): set<int> {
    match proto
    case Telnet => {23}
    case FTP => {21}
    case SSH => {22, 2222}
    case RDP => {3389}
  }

  // The chain of tests in packet_callback.
  function ProtocolOf(dport: int): Option<Protocol> {
    if dport in PortsOf(Telnet) then Some(Telnet)
    else if dport in PortsOf(FTP) then Some(FTP)
    else if dport in PortsOf(SSH) then Some(SSH)
    else if dport in PortsOf(RDP) then Some(RDP)
    else None
  }

  lemma ProtocolOfIs(dport: int, proto: Protocol)
    ensures ProtocolOf(dport) == Some(proto) <==> dport in PortsOf(proto)
  {
  }

  predicate Matches(packet: Packet, proto: Protocol, src: string) {
    packet.ether && packet.toUs && packet.tcp && packet.ip && packet.src == src && packet.dport in PortsOf(proto)
  }

  function Matching(packets: seq<Packet>, proto: Protocol, src: string): nat
    decreases |packets|
  {
    if packets == [] then 0
    else
      Matching(packets[..|packets| - 1], proto, src) + if Matches(packets[|packets| - 1], proto, src) then 1 else 0
  }

  // ------------------------------------------------------------------
  // Counting
  // ------------------------------------------------------------------

  // The Ports dictionary, whose four keys are fixed.
  datatype Ports = Ports(telnet: Dict<int>, ftp: Dict<int>, ssh: Dict<int>, rdp: Dict<int>) {
    function Get(proto: Protocol): Dict<int> {
      match proto
      case Telnet => telnet
      case FTP => ftp
      case SSH => ssh
      case RDP => rdp
    }

    // The lines of the report about one protocol.
    function SectionOf(proto: Protocol): seq<Entry> {
      Section(Get(proto), proto.Name())
    }

    function Set(proto: Protocol, d: Dict<int>): Ports {
      match proto
      case Telnet => this.(telnet := d)
      case FTP => this.(ftp := d)
      case SSH => this.(ssh := d)
      case RDP => this.(rdp := d)
    }
  }

  function Lookup(d: Dict<int>, k: string): Option<int> {
    if d == [] then None else if d[0].key == k then Some(d[0].value) else Lookup(d[1..], k)
  }

  // A counter goes up by one, or starts with one.
  function Bump(d: Dict<int>, k: string): Dict<int> {
    match Lookup(d, k)
    case Some(count) => Put(d, k, count + 1)
    case None => Put(d, k, 1)
  }

  function CountPacket(ports: Ports, packet: Packet): Ports {
    if !(packet.ether && packet.toUs && packet.tcp && packet.ip) then ports
    else
      match ProtocolOf(packet.dport)
      case None => ports
      case Some(proto) => ports.Set(proto, Bump(ports.Get(proto), packet.src))
  }

  function CountAll(packets: seq<Packet>): Ports
    decreases |packets|
  {
    if packets == [] then Ports([], [], [], [])
    else CountPacket(CountAll(packets[..|packets| - 1]), packets[|packets| - 1])
  }

  predicate Distinct(d: Dict<int>) {
    forall i, j :: 0 <= i < j < |d| ==> d[i].key != d[j].key
  }

  // One entry per source, each with the number of packets it stands for.
  ghost predicate Counts(d: Dict<int>, packets: seq<Packet>, proto: Protocol) {
    Distinct(d) && forall b :: b in d <==> b.value == Matching(packets, proto, b.key) > 0
  }

  lemma {:induction false} LookupFinds(d: Dict<int>, k: string, v: int)
    requires forall b :: b in d && b.key == k ==> b.value == v
    ensures Lookup(d, k) == if Binding(k, v) in d then Some(v) else None
  {
    if d != [] {
      assert d == [d[0]] + d[1..];
      LookupFinds(d[1..], k, v);
    }
  }

  lemma {:induction false} PutDistinct(d: Dict<int>, k: string, v: int)
    requires Distinct(d)
    ensures Distinct(Put(d, k, v)) && forall b :: b in Put(d, k, v) && b.key == k ==> b.value == v
  {
    if d != [] {
      assert d == [d[0]] + d[1..];
      var rest := Put(d[1..], k, v);
      PutDistinct(d[1..], k, v);
      forall b | b in rest
        ensures b == Binding(k, v) || b in d[1..]
      {
        PutMembers(d[1..], k, v, b);
      }
      forall j | 0 <= j < |rest|
        ensures rest[j] == Binding(k, v) || rest[j] in d[1..]
      {
        assert rest[j] in rest;
      }
    }
  }

  lemma CountOne(d: Dict<int>, packets: seq<Packet>, packet: Packet, proto: Protocol)
    requires Counts(d, packets, proto) && Matches(packet, proto, packet.src)
    ensures Counts(Bump(d, packet.src), packets + [packet], proto)
  {
    var n := Matching(packets, proto, packet.src);
    LookupFinds(d, packet.src, n);
    assert n > 0 <==> Binding(packet.src, n) in d;
    assert (packets + [packet])[..|packets|] == packets;
    PutDistinct(d, packet.src, n + 1);
    forall b: Binding<int>
      ensures b in Put(d, packet.src, n + 1) <==> b.value == Matching(packets + [packet], proto, b.key) > 0
    {
      PutMembers(d, packet.src, n + 1, b);
    }
  }

  // Main result: after any packets each counter is the number of packets that match its
  // protocol and source, and a source without a counter has none.
  lemma {:induction false} CountersExact(packets: seq<Packet>, proto: Protocol)
    ensures Counts(CountAll(packets).Get(proto), packets, proto)
    decreases |packets|
  {
    if packets != [] {
      var init, packet := packets[..|packets| - 1], packets[|packets| - 1];
      assert packets == init + [packet];
      CountersExact(init, proto);
      CountNext(CountAll(init), init, packet, proto);
    }
  }

  lemma SetGet(ports: Ports, proto: Protocol, d: Dict<int>, other: Protocol)
    ensures ports.Set(proto, d).Get(other) == if other == proto then d else ports.Get(other)
  {
  }

  // What one packet does to the counters of one protocol.
  lemma CountPacketGet(ports: Ports, packet: Packet, proto: Protocol)
    ensures CountPacket(ports, packet).Get(proto)
            == if Matches(packet, proto, packet.src) then Bump(ports.Get(proto), packet.src) else ports.Get(proto)
  {
    var target := ProtocolOf(packet.dport);
    ProtocolOfIs(packet.dport, proto);
    if target.Some? {
      SetGet(ports, target.value, Bump(ports.Get(target.value), packet.src), proto);
    }
  }

  lemma {:induction false} CountNext(ports: Ports, packets: seq<Packet>, packet: Packet, proto: Protocol)
    requires Counts(ports.Get(proto), packets, proto)
    ensures Counts(CountPacket(ports, packet).Get(proto), packets + [packet], proto)
  {
    CountPacketGet(ports, packet, proto);
    if Matches(packet, proto, packet.src) {
      CountOne(ports.Get(proto), packets, packet, proto);
    } else {
      CountOther(ports.Get(proto), packets, packet, proto);
    }
  }

  lemma CountOther(d: Dict<int>, packets: seq<Packet>, packet: Packet, proto: Protocol)
    requires Counts(d, packets, proto) && !Matches(packet, proto, packet.src)
    ensures Counts(d, packets + [packet], proto)
  {
    assert (packets + [packet])[..|packets|] == packets;
    assert forall src :: Matching(packets + [packet], proto, src) == Matching(packets, proto, src);
  }

  // ------------------------------------------------------------------
  // The report
  // ------------------------------------------------------------------

  function Section(d: Dict<int>, name: string): seq<Entry> {
    if d == [] then []
    else (if d[0].value >= MAX_CONNS then [Entry(d[0].key, name)] else []) + Section(d[1..], name)
  }

  // suspicious_connections, in the order of the Ports dictionary.
  function Report(ports: Ports): seq<Entry> {
    Section(ports.telnet, Telnet.Name()) + Section(ports.ftp, FTP.Name())
    + Section(ports.ssh, SSH.Name()) + Section(ports.rdp, RDP.Name())
  }

  // "\n".join of the lines: no newline at the end, and nothing at all for an empty list.
  function ReportText(entries: seq<Entry>): string {
    if entries == [] then ""
    else if |entries| == 1 then entries[0].name + ['-'] + entries[0].value
    else Line(entries[0], '-') + ReportText(entries[1..])
  }

  function SameText(value: string): string {
    value
  }

  // One round of the scan, as spofingScan returns it.
  function SpoofingScan(packets: seq<Packet>): map<string, string> {
    LoadOne(map[], Records(ReportText(Report(CountAll(packets))), '-'), SameText)
  }

  lemma {:induction false} SectionMembers(d: Dict<int>, name: string, e: Entry)
    ensures e in Section(d, name) <==> e.value == name && exists b :: b in d && b.key == e.name && b.value >= MAX_CONNS
  {
    if d != [] {
      assert d == [d[0]] + d[1..];
      SectionMembers(d[1..], name, e);
      if b :| b in d && b.key == e.name && b.value >= MAX_CONNS {
        assert b == d[0] || b in d[1..];
      }
    }
  }

  lemma SectionIs(packets: seq<Packet>, proto: Protocol, e: Entry)
    ensures e in Section(CountAll(packets).Get(proto), proto.Name())
            <==> e.value == proto.Name() && Matching(packets, proto, e.name) >= MAX_CONNS
  {
    var d := CountAll(packets).Get(proto);
    CountersExact(packets, proto);
    SectionMembers(d, proto.Name(), e);
    var b := Binding(e.name, Matching(packets, proto, e.name));
    assert b in d <==> b.value > 0;
  }

  predicate Reported(packets: seq<Packet>, e: Entry, proto: Protocol) {
    e.value == proto.Name() && Matching(packets, proto, e.name) >= MAX_CONNS
  }

  // The log lists exactly the pairs that reached the threshold.
  lemma ReportIs(packets: seq<Packet>, e: Entry)
    ensures e in Report(CountAll(packets))
            <==> || Reported(packets, e, Telnet) || Reported(packets, e, FTP)
                 || Reported(packets, e, SSH) || Reported(packets, e, RDP)
  {
    SectionIs(packets, Telnet, e);
    SectionIs(packets, FTP, e);
    SectionIs(packets, SSH, e);
    SectionIs(packets, RDP, e);
  }

  lemma RecordsOfLastLine(e: Entry)
    requires Loggable(e, '-') && e.value != ""
    ensures Records(e.name + ['-'] + e.value, '-') == [e]
  {
    var text := e.name + ['-'] + e.value;
    FindIn(e.name, '-', e.value);
    FindNone(e.value, '\n');
    assert text[..|e.name|] == e.name && text[|e.name| + 1..] == e.value && e.value[..|e.value|] == e.value;
  }

  lemma {:induction false} RecordsOfReport(entries: seq<Entry>)
    requires forall e :: e in entries ==> Loggable(e, '-') && e.value != ""
    ensures Records(ReportText(entries), '-') == entries
  {
    if entries != [] {
      var e, tail := entries[0], entries[1..];
      assert entries == [e] + tail && e in entries;
      if tail == [] {
        RecordsOfLastLine(e);
      } else {
        RecordsOfReport(tail);
        RecordsOfLine(e, '-', ReportText(tail));
      }
    }
  }

  // ------------------------------------------------------------------
  // The map
  // ------------------------------------------------------------------

  // A section overwrites the sources it lists, and leaves the others.
  lemma {:induction false} LoadSection(m: map<string, string>, section: seq<Entry>, name: string, ip: string)
    requires forall e :: e in section ==> e.value == name
    ensures Got(LoadOne(m, section, SameText), ip) == if Entry(ip, name) in section then Some(name) else Got(m, ip)
    decreases |section|
  {
    if section != [] {
      var init, e := section[..|section| - 1], section[|section| - 1];
      assert section == init + [e];
      LoadSection(m, init, name, ip);
    }
  }

  // The last protocol, in dictionary order, for which a source reached the threshold.
  function LastProtocol(packets: seq<Packet>, ip: string): Option<string> {
    if Matching(packets, RDP, ip) >= MAX_CONNS then Some(RDP.Name())
    else if Matching(packets, SSH, ip) >= MAX_CONNS then Some(SSH.Name())
    else if Matching(packets, FTP, ip) >= MAX_CONNS then Some(FTP.Name())
    else if Matching(packets, Telnet, ip) >= MAX_CONNS then Some(Telnet.Name())
    else None
  }

  function Got(m: map<string, string>, ip: string): Option<string> {
    if ip in m then Some(m[ip]) else None
  }

  ghost predicate SpoofingExact(packets: seq<Packet>, m: map<string, string>) {
    forall ip :: Got(m, ip) == LastProtocol(packets, ip)
  }

  // A section overwrites what earlier sections said about a source.
  function Later(earlier: Option<string>, packets: seq<Packet>, proto: Protocol, ip: string): Option<string> {
    if Matching(packets, proto, ip) >= MAX_CONNS then Some(proto.Name()) else earlier
  }

  lemma LastIsLater(packets: seq<Packet>, ip: string)
    ensures var ftp := Later(Later(None, packets, Telnet, ip), packets, FTP, ip);
            LastProtocol(packets, ip) == Later(Later(ftp, packets, SSH, ip), packets, RDP, ip)
  {
  }

  lemma LoadReport(packets: seq<Packet>, ip: string)
    ensures Got(LoadOne(map[], Report(CountAll(packets)), SameText), ip) == LastProtocol(packets, ip)
  {
    var ports := CountAll(packets);
    var mt := LoadOne(map[], ports.SectionOf(Telnet), SameText);
    var mf := LoadOne(mt, ports.SectionOf(FTP), SameText);
    var ms := LoadOne(mf, ports.SectionOf(SSH), SameText);
    ReportInParts(ports);
    SectionLoads(map[], packets, Telnet, ip);
    SectionLoads(mt, packets, FTP, ip);
    SectionLoads(mf, packets, SSH, ip);
    SectionLoads(ms, packets, RDP, ip);
    LastIsLater(packets, ip);
  }

  lemma ReportInParts(ports: Ports)
    ensures var mt := LoadOne(map[], ports.SectionOf(Telnet), SameText);
            var mf := LoadOne(mt, ports.SectionOf(FTP), SameText);
            var ms := LoadOne(mf, ports.SectionOf(SSH), SameText);
            LoadOne(map[], Report(ports), SameText) == LoadOne(ms, ports.SectionOf(RDP), SameText)
  {
    var t, f := Section(ports.telnet, Telnet.Name()), Section(ports.ftp, FTP.Name());
    var s, r := Section(ports.ssh, SSH.Name()), Section(ports.rdp, RDP.Name());
    LoadOneAppends(map[], t + f + s, r, SameText);
    LoadOneAppends(map[], t + f, s, SameText);
    LoadOneAppends(map[], t, f, SameText);
  }

  lemma SectionLoads(m: map<string, string>, packets: seq<Packet>, proto: Protocol, ip: string)
    ensures Got(LoadOne(m, CountAll(packets).SectionOf(proto), SameText), ip) == Later(Got(m, ip), packets, proto, ip)
  {
    var section := Section(CountAll(packets).Get(proto), proto.Name());
    forall e | e in section
      ensures e.value == proto.Name()
    {
      SectionIs(packets, proto, e);
    }
    SectionIs(packets, proto, Entry(ip, proto.Name()));
    LoadSection(m, section, proto.Name(), ip);
  }

  // Main result: one round maps each source that reached the threshold for some protocol to
  // the last such protocol, and no other source, if and only if no such source contains '-'.
  lemma SpoofingScanExactIff(packets: seq<Packet>)
    ensures SpoofingExact(packets, SpoofingScan(packets))
            <==> forall ip :: LastProtocol(packets, ip).Some? ==> '-' !in ip
  {
    var report := Report(CountAll(packets));
    forall e | e in report
      ensures LastProtocol(packets, e.name).Some? && e.value != "" && '\n' !in e.value
    {
      ReportIs(packets, e);
    }
    if forall ip :: LastProtocol(packets, ip).Some? ==> '-' !in ip {
      RecordsOfReport(report);
      forall ip
        ensures Got(SpoofingScan(packets), ip) == LastProtocol(packets, ip)
      {
        LoadReport(packets, ip);
      }
    } else {
      var ip :| LastProtocol(packets, ip).Some? && '-' in ip;
      DashIsNoKey(packets, ip);
      assert Got(SpoofingScan(packets), ip) != LastProtocol(packets, ip);
    }
  }

  lemma DashIsNoKey(packets: seq<Packet>, ip: string)
    requires '-' in ip
    ensures ip !in SpoofingScan(packets)
  {
    var entries := Records(ReportText(Report(CountAll(packets))), '-');
    LoadOneKeys(map[], entries, SameText, ip);
    NamesMember(entries, ip);
  }

  // ------------------------------------------------------------------
  // The loops
  // ------------------------------------------------------------------

  class Sniffer {
    var ports: Ports

    constructor ()
      ensures ports == CountAll([])
    {
      ports := Ports([], [], [], []);
    }

    method PacketCallback(packet: Packet)
      modifies this
      ensures ports == CountPacket(old(ports), packet)
    {
      if packet.ether && packet.toUs && packet.tcp && packet.ip {
        var proto := ProtocolOf(packet.dport);
        if proto.Some? {
          var d := ports.Get(proto.value);
          var count := Lookup(d, packet.src);
          if count.Some? {
            ports := ports.Set(proto.value, Put(d, packet.src, count.value + 1));
          } else {
            ports := ports.Set(proto.value, Put(d, packet.src, 1));
          }
        }
      }
    }

    method Sniff(packets: seq<Packet>)
      requires ports == CountAll([])
      modifies this
      ensures ports == CountAll(packets)
    {
      var i := 0;
      assert packets[..0] == [];
      while i < |packets|
        invariant 0 <= i <= |packets|
        invariant ports == CountAll(packets[..i])
      {
        assert packets[..i + 1][..|packets[..i + 1]| - 1] == packets[..i];
        PacketCallback(packets[i]);
        i := i + 1;
      }
      assert packets[..|packets|] == packets;
    }

    // The two nested loops of main.
    method SuspiciousConnections() returns (entries: seq<Entry>)
      ensures entries == Report(ports)
    {
      entries := [];
      var protocols := [Telnet, FTP, SSH, RDP];
      var p := 0;
      while p < |protocols|
        invariant 0 <= p <= |protocols|
        invariant p == 0 ==> entries == []
        invariant p == 1 ==> entries == Section(ports.telnet, Telnet.Name())
        invariant p == 2 ==> entries == Section(ports.telnet, Telnet.Name()) + Section(ports.ftp, FTP.Name())
        invariant p == 3 ==> entries == Section(ports.telnet, Telnet.Name()) + Section(ports.ftp, FTP.Name())
                                        + Section(ports.ssh, SSH.Name())
        invariant p == 4 ==> entries == Report(ports)
      {
        var found := Busy(ports.Get(protocols[p]), protocols[p].Name());
        entries := entries + found;
        p := p + 1;
      }
    }

    static method Busy(d: Dict<int>, name: string) returns (entries: seq<Entry>)
      ensures entries == Section(d, name)
    {
      entries := [];
      var i := 0;
      while i < |d|
        invariant 0 <= i <= |d|
        invariant entries + Section(d[i..], name) == Section(d, name)
      {
        assert d[i..][1..] == d[i + 1..];
        if d[i].value >= MAX_CONNS {
          entries := entries + [Entry(d[i].key, name)];
        }
        i := i + 1;
      }
      assert entries + [] == entries;
    }
  }

  // ------------------------------------------------------------------
  // By port number and printed name
  // ------------------------------------------------------------------

  // The TCP packets to this machine, from this source, to one of these ports.
  function CountTo(packets: seq<Packet>, ports: set<int>, src: string): nat
    decreases |packets|
  {
    if packets == [] then 0
    else
      var p := packets[|packets| - 1];
      CountTo(packets[..|packets| - 1], ports, src)
      + if p.ether && p.toUs && p.tcp && p.ip && p.src == src && p.dport in ports then 1 else 0
  }

  lemma {:induction false} MatchingByPort(packets: seq<Packet>, src: string)
    ensures Matching(packets, Telnet, src) == CountTo(packets, {23}, src)
    ensures Matching(packets, FTP, src) == CountTo(packets, {21}, src)
    ensures Matching(packets, SSH, src) == CountTo(packets, {22, 2222}, src)
    ensures Matching(packets, RDP, src) == CountTo(packets, {3389}, src)
    decreases |packets|
  {
    if packets != [] {
      MatchingByPort(packets[..|packets| - 1], src);
    }
  }

  // Main result: the report has a line for a source and a name exactly when five packets
  // or more went from that source to the ports that the name stands for.
  lemma ReportByPort(packets: seq<Packet>, src: string, printed: string)
    ensures Entry(src, printed) in Report(CountAll(packets))
            <==> || (printed == "Telnet" && CountTo(packets, {23}, src) >= 5)
                 || (printed == "FTP" && CountTo(packets, {21}, src) >= 5)
                 || (printed == "SSH" && CountTo(packets, {22, 2222}, src) >= 5)
                 || (printed == "RDP" && CountTo(packets, {3389}, src) >= 5)
  {
    ReportIs(packets, Entry(src, printed));
    MatchingByPort(packets, src);
  }

  // The protocol that a source is mapped to.
  lemma LastByPort(packets: seq<Packet>, src: string)
    ensures LastProtocol(packets, src)
            == if CountTo(packets, {3389}, src) >= 5 then Some("RDP")
               else if CountTo(packets, {22, 2222}, src) >= 5 then Some("SSH")
               else if CountTo(packets, {21}, src) >= 5 then Some("FTP")
               else if CountTo(packets, {23}, src) >= 5 then Some("Telnet")
               else None
  {
    MatchingByPort(packets, src);
  }

  // A line of the report, and the newline between two of them.
  lemma ReportLines(e: Entry, f: Entry, more: seq<Entry>)
    ensures ReportText([]) == "" && ReportText([e]) == e.name + "-" + e.value
    ensures ReportText([e, f] + more) == e.name + "-" + e.value + "\n" + ReportText([f] + more)
  {
    assert ([e, f] + more)[1..] == [f] + more;
  }
}
