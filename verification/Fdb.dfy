/** The MAC forwarding table: addresses and the assembly of a device's table. */
module Fdb {
  import opened Dicts
  import opened Text
  import opened Oids

  // ----- addresses -----

  function HexDigits(s: string): (r: string)
    ensures |r| <= |s| && forall i :: 0 <= i < |r| ==> IsHexDigit(r[i])
  {
    if s == [] then []
    else if IsHexDigit(Lower(s[0])) then [Lower(s[0])] + HexDigits(s[1..])
    else HexDigits(s[1..])
  }

  /** 12 lower-case hex digits, or None. */
  function NormalizeMac(s: string): Option<string> {
    if |HexDigits(s)| == 12 then Some(HexDigits(s)) else None
  }

  predicate Canonical(m: string) {
    |m| == 12 && forall i :: 0 <= i < |m| ==> IsHexDigit(m[i])
  }

  /** ":".join of pairs. */
  function Pairs(m: string): string {
    if |m| <= 2 then m else [m[0]] + ([m[1]] + (":" + Pairs(m[2..])))
  }

  function FormatMac(s: string): string {
    match NormalizeMac(s)
    case None => s
    case Some(m) => Pairs(m)
  }

  lemma {:induction false} HexDigitsOf(m: string)
    requires forall i :: 0 <= i < |m| ==> IsHexDigit(m[i])
    ensures HexDigits(m) == m
  {
    if m != [] {
      HexDigitsOf(m[1..]);
    }
  }

  lemma HexDigitsStep(c: char, s: string)
    ensures HexDigits([c] + s) == (if IsHexDigit(Lower(c)) then [Lower(c)] else []) + HexDigits(s)
  {
    assert ([c] + s)[1..] == s;
  }

  lemma HexDigitsOfPair(a: char, b: char, rest: string)
    requires IsHexDigit(a) && IsHexDigit(b)
    ensures HexDigits([a] + ([b] + (":" + rest))) == [a] + ([b] + HexDigits(rest))
  {
    HexDigitsStep(':', rest);
    HexDigitsStep(b, ":" + rest);
    HexDigitsStep(a, [b] + (":" + rest));
  }

  lemma FirstTwo(m: string)
    requires |m| > 2
    ensures m == [m[0]] + ([m[1]] + m[2..])
  {
  }

  lemma {:induction false} HexDigitsOfPairs(m: string)
    requires forall i :: 0 <= i < |m| ==> IsHexDigit(m[i])
    ensures HexDigits(Pairs(m)) == m
    decreases |m|
  {
    if |m| <= 2 {
      HexDigitsOf(m);
    } else {
      var rest := Pairs(m[2..]);
      HexDigitsOfPairs(m[2..]);
      HexDigitsOfPair(m[0], m[1], rest);
      FirstTwo(m);
    }
  }

  /** Formatting a canonical address and normalising it again gives it back; so does normalising it at once. */
  lemma NormalizeFormat(m: string)
    requires Canonical(m)
    ensures NormalizeMac(m) == Some(m)
    ensures NormalizeMac(FormatMac(m)) == Some(m)
  {
    HexDigitsOf(m);
    HexDigitsOfPairs(m);
  }

  /** Whatever is normalised is canonical. */
  lemma NormalizedIsCanonical(s: string)
    ensures NormalizeMac(s).Some? ==> Canonical(NormalizeMac(s).value)
  {
  }

  function HexChar(d: nat): (c: char)
    requires d < 16
    ensures IsHexDigit(c)
  {
    if d < 10 then ('0' as int + d) as char else ('a' as int + d - 10) as char
  }

  /** f"{o:02x}" */
  function HexOctet(o: nat): string
    requires o < 256
  {
    [HexChar(o / 16), HexChar(o % 16)]
  }

  /** int(s), which ignores blanks around the number; None is ValueError. */
  function Int(s: string): Option<int> {
    ParseInt(Strip(s))
  }

  /** Decimal parts as octets (the value modulo 256); None when a part is not a number. */
  function HexOctets(parts: seq<string>): Option<string> {
    if parts == [] then Some([])
    else
      var n := Int(parts[0]);
      var rest := HexOctets(parts[1..]);
      if n.None? || rest.None? then None else Some(HexOctet(n.value % 256) + rest.value)
  }

  function MacFromDecimals(parts: seq<string>): Option<string> {
    if |parts| != 6 then None else HexOctets(parts)
  }

  lemma {:induction false} HexOctetsAreHex(parts: seq<string>)
    requires HexOctets(parts).Some?
    ensures var m := HexOctets(parts).value; |m| == 2 * |parts| && forall i :: 0 <= i < |m| ==> IsHexDigit(m[i])
  {
    if parts != [] {
      HexOctetsAreHex(parts[1..]);
    }
  }

  /** Every address taken from a row index is canonical, whatever numbers the index holds. */
  lemma DecimalsAreCanonical(parts: seq<string>)
    ensures MacFromDecimals(parts).Some? ==> Canonical(MacFromDecimals(parts).value)
  {
    if MacFromDecimals(parts).Some? {
      HexOctetsAreHex(parts);
    }
  }

  /** A Q-BRIDGE row index: VLAN and address. */
  function ParseSuffixQ(suffix: string): Option<(int, string)> {
    var parts := Split(suffix);
    if |parts| != 7 then None
    else
      var mac := MacFromDecimals(parts[1..7]);
      if mac.None? then None else Some((Int(parts[0]).GetOr(0), mac.value))
  }

  /** A BRIDGE row index: the address, VLAN 0. */
  function ParseSuffixD(suffix: string): Option<(int, string)> {
    var mac := MacFromDecimals(Split(suffix));
    if mac.None? then None else Some((0, mac.value))
  }

  /** Octets as canonical text. */
  function MacOf(octets: seq<nat>): string
    requires forall i :: 0 <= i < |octets| ==> octets[i] < 256
  {
    if octets == [] then [] else HexOctet(octets[0]) + MacOf(octets[1..])
  }

  lemma {:induction false} OctetsOf(octets: seq<nat>, parts: seq<string>)
    requires forall i :: 0 <= i < |octets| ==> octets[i] < 256
    requires |parts| == |octets| && forall i :: 0 <= i < |octets| ==> Int(parts[i]) == Some(octets[i])
    ensures HexOctets(parts) == Some(MacOf(octets))
  {
    if octets != [] {
      OctetsOf(octets[1..], parts[1..]);
      assert Int(parts[0]) == Some(octets[0]);
      assert octets[0] % 256 == octets[0];
    }
  }

  /** Each part of a split dotted OID is one of its arcs. */
  lemma PartOfDotted(arcs: seq<nat>, i: nat)
    requires i < |arcs|
    ensures |Split(Dotted(arcs))| == |arcs| && Int(Split(Dotted(arcs))[i]) == Some(arcs[i])
  {
    SplitDotted(arcs);
    ParseStr(arcs[i]);
    StripStr(arcs[i]);
  }

  lemma ParseWalkedD(octets: seq<nat>)
    requires |octets| == 6 && forall i :: 0 <= i < 6 ==> octets[i] < 256
    ensures ParseSuffixD(Dotted(octets)) == Some((0, MacOf(octets)))
  {
    forall i | 0 <= i < 6
      ensures |Split(Dotted(octets))| == 6 && Int(Split(Dotted(octets))[i]) == Some(octets[i])
    {
      PartOfDotted(octets, i);
    }
    OctetsOf(octets, Split(Dotted(octets)));
  }

  lemma ParseWalkedQ(vlan: nat, octets: seq<nat>)
    requires |octets| == 6 && forall i :: 0 <= i < 6 ==> octets[i] < 256
    ensures ParseSuffixQ(Dotted([vlan] + octets)) == Some((vlan, MacOf(octets)))
  {
    var arcs := [vlan] + octets;
    var parts := Split(Dotted(arcs));
    PartOfDotted(arcs, 0);
    forall i | 0 <= i < 6 ensures Int(parts[1..7][i]) == Some(octets[i]) {
      PartOfDotted(arcs, i + 1);
    }
    OctetsOf(octets, parts[1..7]);
  }

  /** The row index that a walk yields for a VLAN and six octets parses back to exactly them, as a canonical address. */
  lemma ParseWalkedSuffix(vlan: nat, octets: seq<nat>)
    requires |octets| == 6 && forall i :: 0 <= i < 6 ==> octets[i] < 256
    ensures ParseSuffixQ(Dotted([vlan] + octets)) == Some((vlan, MacOf(octets)))
    ensures ParseSuffixD(Dotted(octets)) == Some((0, MacOf(octets)))
    ensures Canonical(MacOf(octets))
  {
    ParseWalkedQ(vlan, octets);
    ParseWalkedD(octets);
    MacOfCanonical(octets);
  }

  lemma {:induction false} MacOfCanonical(octets: seq<nat>)
    requires forall i :: 0 <= i < |octets| ==> octets[i] < 256
    ensures |MacOf(octets)| == 2 * |octets| && forall i :: 0 <= i < |MacOf(octets)| ==> IsHexDigit(MacOf(octets)[i])
  {
    if octets != [] {
      MacOfCanonical(octets[1..]);
    }
  }

  // ----- reading an address back -----

  /** The value of a hex digit. */
  function HexValue(c: char): nat {
    if '0' <= c <= '9' then c as int - '0' as int
    else if 'a' <= c <= 'f' then c as int - 'a' as int + 10
    else 0
  }

  /** Pair i of the text is an octet's two digits, the high one first. */
  predicate PairReads(mac: string, i: nat, octet: int)
    requires 2 * i + 1 < |mac|
  {
    IsHexDigit(mac[2 * i]) && IsHexDigit(mac[2 * i + 1])
    && 16 * HexValue(mac[2 * i]) + HexValue(mac[2 * i + 1]) == octet
  }

  /** The text denotes these octets. */
  predicate Reads(mac: string, octets: seq<int>) {
    |mac| == 2 * |octets| && forall i :: 0 <= i < |octets| ==> PairReads(mac, i, octets[i])
  }

  lemma HexCharValue(d: nat)
    requires d < 16
    ensures HexValue(HexChar(d)) == d
  {
  }

  lemma ReadsCons(o: nat, mac: string, octets: seq<int>)
    requires o < 256 && Reads(mac, octets)
    ensures Reads(HexOctet(o) + mac, [o] + octets)
  {
    var m, os := HexOctet(o) + mac, [o] + octets;
    HexCharValue(o / 16);
    HexCharValue(o % 16);
    forall i | 0 <= i < |os| ensures PairReads(m, i, os[i]) {
      if i > 0 {
        assert m[2 * i] == mac[2 * (i - 1)] && m[2 * i + 1] == mac[2 * (i - 1) + 1];
        assert PairReads(mac, i - 1, octets[i - 1]);
      }
    }
  }

  /** The text of octets denotes them. */
  lemma {:induction false} MacOfReads(octets: seq<nat>)
    requires forall i :: 0 <= i < |octets| ==> octets[i] < 256
    ensures Reads(MacOf(octets), octets)
  {
    if octets != [] {
      MacOfReads(octets[1..]);
      ReadsCons(octets[0], MacOf(octets[1..]), octets[1..]);
      assert octets == [octets[0]] + octets[1..];
    }
  }

  /** The octets of decimal parts: each number modulo 256. */
  predicate Numbers(parts: seq<string>, octets: seq<int>) {
    |octets| == |parts|
    && forall i :: 0 <= i < |parts| ==> Int(parts[i]).Some? && octets[i] == Int(parts[i]).value % 256
  }

  /** Decimal parts become text exactly when all are numbers, and the text denotes the numbers modulo 256. */
  lemma {:induction false} HexOctetsRead(parts: seq<string>)
    ensures HexOctets(parts).Some? <==> forall i :: 0 <= i < |parts| ==> Int(parts[i]).Some?
    ensures HexOctets(parts).Some? ==> exists octets :: Numbers(parts, octets) && Reads(HexOctets(parts).value, octets)
  {
    if parts == [] {
      assert Numbers(parts, []) && Reads("", []);
    } else {
      HexOctetsRead(parts[1..]);
      assert forall i :: 0 <= i < |parts| - 1 ==> parts[i + 1] == parts[1..][i];
      if HexOctets(parts).Some? {
        var mac := HexOctets(parts[1..]).value;
        var octets :| Numbers(parts[1..], octets) && Reads(mac, octets);
        var o := Int(parts[0]).value % 256;
        ReadsCons(o, mac, octets);
        assert Numbers(parts, [o] + octets);
      } else if Int(parts[0]).Some? {
        var i :| 0 <= i < |parts| - 1 && Int(parts[1..][i]).None?;
        assert Int(parts[i + 1]).None?;
      }
    }
  }

  lemma PairUnique(a: string, b: string, i: nat, octet: int)
    requires 2 * i + 1 < |a| && 2 * i + 1 < |b| && PairReads(a, i, octet) && PairReads(b, i, octet)
    ensures a[2 * i] == b[2 * i] && a[2 * i + 1] == b[2 * i + 1]
  {
  }

  /** No two texts denote the same octets. */
  lemma ReadsUnique(a: string, b: string, octets: seq<int>)
    requires Reads(a, octets) && Reads(b, octets)
    ensures a == b
  {
    forall k | 0 <= k < |a| ensures a[k] == b[k] {
      PairUnique(a, b, k / 2, octets[k / 2]);
    }
  }

  // ----- spellings of an address -----

  predicate IsHexEither(c: char) {
    '0' <= c <= '9' || 'a' <= c <= 'f' || 'A' <= c <= 'F'
  }

  /** c is the digit d, in upper or lower case. */
  predicate SameDigit(c: char, d: char) {
    c == d || (c, d) in {('A', 'a'), ('B', 'b'), ('C', 'c'), ('D', 'd'), ('E', 'e'), ('F', 'f')}
  }

  /** s spells the digits m, in either case, with anything but digits strewn in. */
  predicate Spells(s: string, m: string) {
    if s == "" then m == ""
    else if IsHexEither(s[0]) then m != "" && IsHexDigit(m[0]) && SameDigit(s[0], m[0]) && Spells(s[1..], m[1..])
    else Spells(s[1..], m)
  }

  lemma LowerDigit(c: char, d: char)
    ensures IsHexDigit(Lower(c)) <==> IsHexEither(c)
    ensures IsHexDigit(Lower(c)) ==> (Lower(c) == d <==> IsHexDigit(d) && SameDigit(c, d))
  {
  }

  lemma {:induction false} SpellingIs(s: string, m: string)
    ensures HexDigits(s) == m <==> Spells(s, m)
  {
    if s != "" {
      var d := if m == "" then '.' else m[0];
      LowerDigit(s[0], d);
      if IsHexEither(s[0]) {
        if m != "" {
          SpellingIs(s[1..], m[1..]);
          assert m == [m[0]] + m[1..];
        }
      } else {
        SpellingIs(s[1..], m);
      }
    }
  }

  /** A text is normalised to m exactly when it spells the 12 digits of m: case and separators do not matter. */
  lemma NormalizeExactly(s: string, m: string)
    ensures NormalizeMac(s) == Some(m) <==> |m| == 12 && Spells(s, m)
  {
    SpellingIs(s, m);
  }

  // ----- assembling the table -----

  /** A learned address before deduplication. */
  datatype Raw = Raw(vlan: int, mac: string, ifIndex: string)

  datatype Record = Record(mac: string, macText: string, vlan: int, ifIndex: string, ifName: string, portMacCount: nat)

  /** What an entry of the port table says: the port, blanks aside, and its ifIndex; nothing when that is no number. */
  function Mapping(entry: (string, string)): Option<(string, string)> {
    var i := Int(entry.1);
    if i.Some? then Some((Strip(entry.0), Str(i.value))) else None
  }

  function Mappings(baseIf: Dict<string, string>): (ms: seq<Option<(string, string)>>)
    ensures |ms| == |baseIf|
  {
    seq(|baseIf|, i requires 0 <= i < |baseIf| => Mapping(baseIf[i]))
  }

  /** The ifIndex of each bridge port after the first n entries. */
  function PortMap(ms: seq<Option<(string, string)>>, n: nat): map<string, string>
    requires n <= |ms|
  {
    if n == 0 then map[]
    else if ms[n - 1].Some? then PortMap(ms, n - 1)[ms[n - 1].value.0 := ms[n - 1].value.1]
    else PortMap(ms, n - 1)
  }

  function Ports(baseIf: Dict<string, string>): map<string, string> {
    PortMap(Mappings(baseIf), |baseIf|)
  }

  /** The ifIndex of a bridge port; "" and "0" are not learned on a port, an unmapped port is its own ifIndex. */
  function ResolveIf(ports: map<string, string>, port: string): Option<string> {
    var bare := Strip(port);
    if bare == "" || bare == "0" then None else Some(if bare in ports then ports[bare] else bare)
  }

  function RawOf(ports: map<string, string>, vlanAware: bool, cell: (string, string)): Option<Raw> {
    var parsed := if vlanAware then ParseSuffixQ(cell.0) else ParseSuffixD(cell.0);
    var ifIndex := ResolveIf(ports, cell.1);
    if parsed.None? || ifIndex.None? then None else Some(Raw(parsed.value.0, parsed.value.1, ifIndex.value))
  }

  /** What each cell of the address column is learned as. */
  function Cells(ports: map<string, string>, vlanAware: bool, cells: Dict<string, string>): (rs: seq<Option<Raw>>)
    ensures |rs| == |cells|
  {
    seq(|cells|, i requires 0 <= i < |cells| => RawOf(ports, vlanAware, cells[i]))
  }

  /** The usable rows among the first n, in walk order. */
  function RawRows(learned: seq<Option<Raw>>, n: nat): seq<Raw>
    requires n <= |learned|
  {
    if n == 0 then [] else RawRows(learned, n - 1) + if learned[n - 1].Some? then [learned[n - 1].value] else []
  }

  lemma {:induction false} RawRowsAre(learned: seq<Option<Raw>>, n: nat, r: Raw)
    requires n <= |learned|
    ensures r in RawRows(learned, n) <==> exists i :: 0 <= i < n && learned[i] == Some(r)
  {
    if n > 0 {
      RawRowsAre(learned, n - 1, r);
    }
  }

  lemma StrIsZero(n: int)
    ensures Str(n) != "" && (Str(n) == "0" <==> n == 0)
  {
    ParseStr(n);
    ParseStr(0);
    assert Str(0) == "0";
  }

  /** What a walked cell is learned as: nothing for port 0, else the address on the port's ifIndex, mapped or not. */
  lemma WalkedCell(ports: map<string, string>, vlan: nat, octets: seq<nat>, port: int)
    requires |octets| == 6 && forall i :: 0 <= i < 6 ==> octets[i] < 256
    ensures var ifIndex := if Str(port) in ports then ports[Str(port)] else Str(port);
            && RawOf(ports, true, (Dotted([vlan] + octets), Str(port)))
               == (if port == 0 then None else Some(Raw(vlan, MacOf(octets), ifIndex)))
            && RawOf(ports, false, (Dotted(octets), Str(port)))
               == (if port == 0 then None else Some(Raw(0, MacOf(octets), ifIndex)))
  {
    ParseWalkedSuffix(vlan, octets);
    StrIsZero(port);
    StripStr(port);
  }

  /** Blanks around a port say nothing. */
  lemma PortBlanks(ports: map<string, string>, port: string)
    ensures ResolveIf(ports, port) == ResolveIf(ports, Strip(port))
  {
    StripTwice(port);
  }

  lemma {:induction false} StripTwice(s: string)
    ensures Strip(Strip(s)) == Strip(s)
    decreases |s|
  {
    if s != "" {
      if IsSpace(s[0]) {
        StripTwice(s[1..]);
      } else if IsSpace(s[|s| - 1]) {
        StripTwice(s[..|s| - 1]);
      }
    }
  }

  /** The entry gives the port an ifIndex. */
  predicate Maps(m: Option<(string, string)>, port: string) {
    m.Some? && m.value.0 == port
  }

  /** A bridge port is mapped exactly when some entry maps it. */
  lemma {:induction false} PortMapHas(ms: seq<Option<(string, string)>>, n: nat, port: string)
    requires n <= |ms|
    ensures port in PortMap(ms, n) <==> exists i :: 0 <= i < n && Maps(ms[i], port)
  {
    if n > 0 {
      PortMapHas(ms, n - 1, port);
    }
  }

  /** Of several entries for a port the last one counts. */
  lemma {:induction false} PortMapIs(ms: seq<Option<(string, string)>>, n: nat, port: string, i: nat)
    requires i < n <= |ms| && Maps(ms[i], port) && forall j :: i < j < n ==> !Maps(ms[j], port)
    ensures port in PortMap(ms, n) && PortMap(ms, n)[port] == ms[i].value.1
  {
    if i < n - 1 {
      PortMapIs(ms, n - 1, port, i);
      assert !Maps(ms[n - 1], port);
    }
  }

  /** The port table, exactly: its entries with a number, the last one for each port. */
  lemma {:induction false} PortsAre(baseIf: Dict<string, string>, port: string)
    ensures port in Ports(baseIf) <==> exists i :: 0 <= i < |baseIf| && Maps(Mapping(baseIf[i]), port)
    ensures forall i :: 0 <= i < |baseIf| && Maps(Mapping(baseIf[i]), port)
                        && (forall j :: i < j < |baseIf| ==> !Maps(Mapping(baseIf[j]), port)) ==>
              port in Ports(baseIf) && Ports(baseIf)[port] == Mapping(baseIf[i]).value.1
  {
    var ms, n := Mappings(baseIf), |baseIf|;
    PortMapHas(ms, n, port);
    forall i | 0 <= i < n && Maps(Mapping(baseIf[i]), port) && forall j :: i < j < n ==> !Maps(Mapping(baseIf[j]), port)
      ensures port in Ports(baseIf) && Ports(baseIf)[port] == Mapping(baseIf[i]).value.1
    {
      assert forall j :: i < j < n ==> ms[j] == Mapping(baseIf[j]);
      PortMapIs(ms, n, port, i);
    }
    assert forall i :: 0 <= i < n ==> ms[i] == Mapping(baseIf[i]);
  }

  // ----- what the tables say, and what the records have to say -----

  /** An entry of the port table that gives a port an ifIndex. */
  predicate Gives(entry: (string, string), port: string) {
    Strip(entry.0) == port && Int(entry.1).Some?
  }

  /** A bridge port's interface: by the last entry that gives it one, else itself; ports "" and "0" have none. */
  predicate OnInterface(baseIf: Dict<string, string>, port: string, ifIndex: string) {
    && port != "" && port != "0"
    && ((exists i :: 0 <= i < |baseIf| && Gives(baseIf[i], port) && ifIndex == Str(Int(baseIf[i].1).value)
                       && forall j :: i < j < |baseIf| ==> !Gives(baseIf[j], port))
        || (ifIndex == port && forall j :: 0 <= j < |baseIf| ==> !Gives(baseIf[j], port)))
  }

  lemma GivesMaps(entry: (string, string), port: string)
    ensures Gives(entry, port) <==> Maps(Mapping(entry), port)
    ensures Gives(entry, port) ==> Mapping(entry).value.1 == Str(Int(entry.1).value)
  {
  }

  /** Some entry gives the port an ifIndex and none after it does. */
  lemma {:induction false} LastGiver(baseIf: Dict<string, string>, port: string, n: nat) returns (i: int)
    requires n <= |baseIf|
    ensures -1 <= i < n && (i >= 0 ==> Gives(baseIf[i], port))
    ensures forall j :: i < j < n ==> !Gives(baseIf[j], port)
  {
    i := n - 1;
    if n > 0 && !Gives(baseIf[n - 1], port) {
      i := LastGiver(baseIf, port, n - 1);
    }
  }

  /** The ports as read are on just these interfaces. */
  lemma ResolvesExactly(baseIf: Dict<string, string>, port: string, ifIndex: string)
    ensures ResolveIf(Ports(baseIf), port) == Some(ifIndex) <==> OnInterface(baseIf, Strip(port), ifIndex)
  {
    var bare := Strip(port);
    PortsAre(baseIf, bare);
    forall i | 0 <= i < |baseIf| ensures Gives(baseIf[i], bare) <==> Maps(Mapping(baseIf[i]), bare) {
      GivesMaps(baseIf[i], bare);
    }
    var i := LastGiver(baseIf, bare, |baseIf|);
    if i >= 0 {
      GivesMaps(baseIf[i], bare);
      var given := Str(Int(baseIf[i].1).value);
      assert bare in Ports(baseIf) && Ports(baseIf)[bare] == given;
    }
  }

  /** What a cell of the address column says: the VLAN, the octets of the address, and the interface. */
  predicate Says(cell: (string, string), vlanAware: bool, baseIf: Dict<string, string>,
                 vlan: int, octets: seq<int>, ifIndex: string)
  {
    var parts := Split(cell.0);
    && |parts| == (if vlanAware then 7 else 6)
    && Numbers(if vlanAware then parts[1..] else parts, octets)
    && vlan == (if vlanAware then Int(parts[0]).GetOr(0) else 0)
    && OnInterface(baseIf, Strip(cell.1), ifIndex)
  }

  lemma NumbersUnique(parts: seq<string>, a: seq<int>, b: seq<int>)
    requires Numbers(parts, a) && Numbers(parts, b)
    ensures a == b
  {
  }

  lemma MacSays(parts: seq<string>, octets: seq<int>)
    requires |parts| == 6 && Numbers(parts, octets)
    ensures MacFromDecimals(parts).Some? && Reads(MacFromDecimals(parts).value, octets)
  {
    HexOctetsRead(parts);
    var read :| Numbers(parts, read) && Reads(HexOctets(parts).value, read);
    NumbersUnique(parts, octets, read);
  }

  lemma SuffixSays(suffix: string, vlanAware: bool, octets: seq<int>)
    ensures var parts := Split(suffix);
            var parsed := if vlanAware then ParseSuffixQ(suffix) else ParseSuffixD(suffix);
            |parts| == (if vlanAware then 7 else 6) && Numbers(if vlanAware then parts[1..] else parts, octets) ==>
              && parsed.Some? && Reads(parsed.value.1, octets)
              && parsed.value.0 == if vlanAware then Int(parts[0]).GetOr(0) else 0
  {
    var parts := Split(suffix);
    if vlanAware && |parts| == 7 && Numbers(parts[1..], octets) {
      assert parts[1..7] == parts[1..];
      MacSays(parts[1..], octets);
    } else if !vlanAware && |parts| == 6 && Numbers(parts, octets) {
      MacSays(parts, octets);
    }
  }

  /** A cell that says something is learned as just that. */
  lemma {:induction false} SaidIsLearned(baseIf: Dict<string, string>, vlanAware: bool, cell: (string, string),
                      vlan: int, octets: seq<int>, ifIndex: string)
    ensures var r := RawOf(Ports(baseIf), vlanAware, cell);
            Says(cell, vlanAware, baseIf, vlan, octets, ifIndex) ==>
              r.Some? && r.value.vlan == vlan && Reads(r.value.mac, octets) && r.value.ifIndex == ifIndex
  {
    SuffixSays(cell.0, vlanAware, octets);
    ResolvesExactly(baseIf, cell.1, ifIndex);
  }

  lemma MacSaid(parts: seq<string>) returns (octets: seq<int>)
    requires MacFromDecimals(parts).Some?
    ensures |parts| == 6 && Numbers(parts, octets) && Reads(MacFromDecimals(parts).value, octets)
  {
    HexOctetsRead(parts);
    octets :| Numbers(parts, octets) && Reads(HexOctets(parts).value, octets);
  }

  /** And what is learned, some cell says. */
  lemma {:induction false} LearnedIsSaid(baseIf: Dict<string, string>, vlanAware: bool, cell: (string, string))
    returns (octets: seq<int>)
    requires RawOf(Ports(baseIf), vlanAware, cell).Some?
    ensures var r := RawOf(Ports(baseIf), vlanAware, cell).value;
            Says(cell, vlanAware, baseIf, r.vlan, octets, r.ifIndex) && Reads(r.mac, octets)
  {
    var parts := Split(cell.0);
    ResolvesExactly(baseIf, cell.1, RawOf(Ports(baseIf), vlanAware, cell).value.ifIndex);
    if vlanAware {
      assert parts[1..7] == parts[1..];
      octets := MacSaid(parts[1..]);
    } else {
      octets := MacSaid(parts);
    }
  }

  /** What a walked cell says: nothing for port 0, else exactly its VLAN, its octets and the port's interface. */
  lemma WalkedSays(baseIf: Dict<string, string>, vlan: nat, octets: seq<nat>, port: int,
                   v: int, o: seq<int>, ifIndex: string)
    requires |octets| == 6 && forall i :: 0 <= i < 6 ==> octets[i] < 256
    ensures Says((Dotted([vlan] + octets), Str(port)), true, baseIf, v, o, ifIndex)
            <==> port != 0 && v == vlan && o == octets && OnInterface(baseIf, Str(port), ifIndex)
    ensures Says((Dotted(octets), Str(port)), false, baseIf, v, o, ifIndex)
            <==> port != 0 && v == 0 && o == octets && OnInterface(baseIf, Str(port), ifIndex)
  {
    StrIsZero(port);
    StripStr(port);
    WalkedNumbers([vlan] + octets, 1);
    WalkedNumbers(octets, 0);
    var q, d := Split(Dotted([vlan] + octets)), Split(Dotted(octets));
    assert ([vlan] + octets)[1..] == octets && octets[0..] == octets && d[0..] == d;
    PartOfDotted([vlan] + octets, 0);
    if Numbers(q[1..], o) {
      NumbersUnique(q[1..], octets, o);
    }
    if Numbers(d, o) {
      NumbersUnique(d, octets, o);
    }
  }

  lemma WalkedNumbers(arcs: seq<nat>, k: nat)
    requires k < |arcs| && forall i :: k <= i < |arcs| ==> arcs[i] < 256
    ensures |Split(Dotted(arcs))| == |arcs| && Numbers(Split(Dotted(arcs))[k..], arcs[k..])
  {
    PartOfDotted(arcs, 0);
    var parts := Split(Dotted(arcs));
    forall i | k <= i < |arcs| ensures Int(parts[i]) == Some(arcs[i]) {
      PartOfDotted(arcs, i);
    }
    NumbersAre(parts, arcs, k);
  }

  lemma NumbersAre(parts: seq<string>, arcs: seq<nat>, k: nat)
    requires k < |arcs| == |parts|
    requires forall i :: k <= i < |arcs| ==> arcs[i] < 256 && Int(parts[i]) == Some(arcs[i])
    ensures Numbers(parts[k..], arcs[k..])
  {
    forall i | 0 <= i < |arcs| - k ensures Int(parts[k..][i]) == Some(arcs[k..][i]) {
      assert parts[k..][i] == parts[k + i] && arcs[k..][i] == arcs[k + i];
    }
  }

  predicate SamePort(a: Raw, b: Raw) {
    a.mac == b.mac && a.ifIndex == b.ifIndex
  }

  predicate Known(deduped: seq<Raw>, r: Raw) {
    exists i :: 0 <= i < |deduped| && SamePort(deduped[i], r)
  }

  /** The first row of every (mac, ifindex) among the first n. */
  function Dedup(raw: seq<Raw>, n: nat): seq<Raw>
    requires n <= |raw|
  {
    if n == 0 then []
    else if Known(Dedup(raw, n - 1), raw[n - 1]) then Dedup(raw, n - 1)
    else Dedup(raw, n - 1) + [raw[n - 1]]
  }

  /** Raw row i is the first with its address and interface. */
  predicate IsFirst(raw: seq<Raw>, i: nat)
    requires i < |raw|
  {
    forall j :: 0 <= j < i ==> !SamePort(raw[j], raw[i])
  }

  /** Every row is represented. */
  lemma {:induction false} DedupKnows(raw: seq<Raw>, n: nat, i: nat)
    requires i < n <= |raw|
    ensures Known(Dedup(raw, n), raw[i])
  {
    var prev := Dedup(raw, n - 1);
    if i < n - 1 {
      DedupKnows(raw, n - 1, i);
    }
    KnownSnoc(prev, raw[n - 1], raw[i]);
  }

  /** Every entry is a first row. */
  lemma {:induction false} DedupFirst(raw: seq<Raw>, n: nat, x: nat) returns (i: nat)
    requires n <= |raw| && x < |Dedup(raw, n)|
    ensures i < n && raw[i] == Dedup(raw, n)[x] && IsFirst(raw, i)
  {
    var prev := Dedup(raw, n - 1);
    if x < |prev| {
      i := DedupFirst(raw, n - 1, x);
    } else {
      i := n - 1;
      forall j | 0 <= j < i ensures !SamePort(raw[j], raw[i]) {
        DedupKnows(raw, i, j);
      }
    }
  }

  lemma {:induction false} DedupDistinct(raw: seq<Raw>, n: nat, x: nat, y: nat)
    requires n <= |raw| && x < y < |Dedup(raw, n)|
    ensures !SamePort(Dedup(raw, n)[x], Dedup(raw, n)[y])
  {
    if y < |Dedup(raw, n - 1)| {
      DedupDistinct(raw, n - 1, x, y);
    }
  }

  /** Deduplication keeps each (mac, ifindex) once, and of each exactly the first row - so the first VLAN seen. */
  lemma DedupKeepsFirsts(raw: seq<Raw>)
    ensures var d := Dedup(raw, |raw|);
            && (forall i, j :: 0 <= i < j < |d| ==> !SamePort(d[i], d[j]))
            && (forall i :: 0 <= i < |raw| ==> Known(d, raw[i]))
            && (forall x :: 0 <= x < |d| ==> exists i :: 0 <= i < |raw| && raw[i] == d[x] && IsFirst(raw, i))
  {
    var d := Dedup(raw, |raw|);
    forall i, j | 0 <= i < j < |d| ensures !SamePort(d[i], d[j]) {
      DedupDistinct(raw, |raw|, i, j);
    }
    forall i | 0 <= i < |raw| ensures Known(d, raw[i]) {
      DedupKnows(raw, |raw|, i);
    }
    forall x | 0 <= x < |d| ensures exists i :: 0 <= i < |raw| && raw[i] == d[x] && IsFirst(raw, i) {
      var i := DedupFirst(raw, |raw|, x);
    }
  }

  /** How many of the first n entries are on an interface. */
  function OnPort(rows: seq<Raw>, ifIndex: string, n: nat): nat
    requires n <= |rows|
  {
    if n == 0 then 0 else OnPort(rows, ifIndex, n - 1) + if rows[n - 1].ifIndex == ifIndex then 1 else 0
  }

  lemma {:induction false} OnPortSum(a: seq<Raw>, b: seq<Raw>, ifIndex: string, n: nat)
    requires n <= |a|
    ensures OnPort(a + b, ifIndex, n) == OnPort(a, ifIndex, n)
  {
    if n > 0 {
      OnPortSum(a, b, ifIndex, n - 1);
    }
  }

  function MacsOn(perIf: map<string, set<string>>, ifIndex: string): set<string> {
    if ifIndex in perIf then perIf[ifIndex] else {}
  }

  /** perIf holds the addresses of the deduplicated rows by interface, and their number is the number of rows. */
  ghost predicate Counts(perIf: map<string, set<string>>, deduped: seq<Raw>) {
    forall ifIndex ::
      && |MacsOn(perIf, ifIndex)| == OnPort(deduped, ifIndex, |deduped|)
      && forall mac :: mac in MacsOn(perIf, ifIndex) <==> Known(deduped, Raw(0, mac, ifIndex))
  }

  lemma KnownSnoc(deduped: seq<Raw>, r: Raw, q: Raw)
    ensures Known(deduped + [r], q) <==> Known(deduped, q) || SamePort(r, q)
  {
    var d := deduped + [r];
    if Known(deduped, q) {
      var i :| 0 <= i < |deduped| && SamePort(deduped[i], q);
      assert d[i] == deduped[i];
    }
    assert d[|deduped|] == r;
  }

  /** Adding a row's address to its interface's set keeps the counts, whether the row is new or a repeat. */
  lemma CountsStep(perIf: map<string, set<string>>, deduped: seq<Raw>, r: Raw)
    requires Counts(perIf, deduped)
    ensures var perIf' := perIf[r.ifIndex := MacsOn(perIf, r.ifIndex) + {r.mac}];
            Counts(perIf', if Known(deduped, r) then deduped else deduped + [r])
  {
    var perIf' := perIf[r.ifIndex := MacsOn(perIf, r.ifIndex) + {r.mac}];
    var d := if Known(deduped, r) then deduped else deduped + [r];
    assert Known(deduped, r) <==> Known(deduped, Raw(0, r.mac, r.ifIndex));
    assert r.mac in MacsOn(perIf, r.ifIndex) <==> Known(deduped, Raw(0, r.mac, r.ifIndex));
    forall ifIndex ensures |MacsOn(perIf', ifIndex)| == OnPort(d, ifIndex, |d|) {
      SizeStep(perIf, deduped, r, ifIndex);
    }
    forall ifIndex, mac ensures mac in MacsOn(perIf', ifIndex) <==> Known(d, Raw(0, mac, ifIndex)) {
      assert mac in MacsOn(perIf, ifIndex) <==> Known(deduped, Raw(0, mac, ifIndex));
      KnownSnoc(deduped, r, Raw(0, mac, ifIndex));
    }
  }

  lemma SizeStep(perIf: map<string, set<string>>, deduped: seq<Raw>, r: Raw, ifIndex: string)
    requires |MacsOn(perIf, ifIndex)| == OnPort(deduped, ifIndex, |deduped|)
    requires r.mac in MacsOn(perIf, r.ifIndex) <==> Known(deduped, r)
    ensures var perIf' := perIf[r.ifIndex := MacsOn(perIf, r.ifIndex) + {r.mac}];
            var d := if Known(deduped, r) then deduped else deduped + [r];
            |MacsOn(perIf', ifIndex)| == OnPort(d, ifIndex, |d|)
  {
    var macs := MacsOn(perIf, r.ifIndex);
    if Known(deduped, r) {
      assert macs + {r.mac} == macs;
    } else {
      assert r.mac !in macs && |macs + {r.mac}| == |macs| + 1;
      OnPortSum(deduped, [r], ifIndex, |deduped|);
      assert (deduped + [r])[|deduped|] == r;
    }
  }

  /** The deduplication loop. */
  method Deduplicate(raw: seq<Raw>) returns (deduped: seq<Raw>, perIf: map<string, set<string>>)
    ensures deduped == Dedup(raw, |raw|) && Counts(perIf, deduped)
  {
    var seen: set<(string, string)> := {};
    deduped, perIf := [], map[];
    for i := 0 to |raw|
      invariant deduped == Dedup(raw, i) && Counts(perIf, deduped)
      invariant forall mac, ifIndex :: (mac, ifIndex) in seen <==> Known(deduped, Raw(0, mac, ifIndex))
    {
      var r := raw[i];
      CountsStep(perIf, deduped, r);
      assert Known(deduped, r) <==> Known(deduped, Raw(0, r.mac, r.ifIndex));
      perIf := perIf[r.ifIndex := MacsOn(perIf, r.ifIndex) + {r.mac}];
      if (r.mac, r.ifIndex) in seen {
        continue;
      }
      forall mac, ifIndex
        ensures (mac, ifIndex) in seen + {(r.mac, r.ifIndex)} <==> Known(deduped + [r], Raw(0, mac, ifIndex))
      {
        KnownSnoc(deduped, r, Raw(0, mac, ifIndex));
      }
      seen := seen + {(r.mac, r.ifIndex)};
      deduped := deduped + [r];
    }
  }

  function RecordOf(r: Raw, count: nat, ifName: Dict<string, string>): Record {
    Record(r.mac, FormatMac(r.mac), r.vlan, r.ifIndex, Lookup(ifName, r.ifIndex).GetOr("if" + r.ifIndex), count)
  }

  /** The Q-BRIDGE table when it has rows, else the plain bridge table. */
  function Learned(qFdb: Dict<string, string>, dFdb: Dict<string, string>, baseIf: Dict<string, string>): seq<Raw> {
    var cells := if qFdb != [] then qFdb else dFdb;
    RawRows(Cells(Ports(baseIf), qFdb != [], cells), |cells|)
  }

  /** A cell says that an address is on an interface, and no earlier cell says so. */
  ghost predicate SaysFirst(cells: Dict<string, string>, i: nat, vlanAware: bool, baseIf: Dict<string, string>,
                            vlan: int, octets: seq<int>, ifIndex: string)
    requires i < |cells|
  {
    && Says(cells[i], vlanAware, baseIf, vlan, octets, ifIndex)
    && forall k, v :: 0 <= k < i ==> !Says(cells[k], vlanAware, baseIf, v, octets, ifIndex)
  }

  /** mac_fmt is the address in six pairs with colons between; the interface's name is the walked one or "if<index>". */
  predicate Labelled(r: Record, ifName: Dict<string, string>) {
    && |r.mac| == 12 && |r.macText| == 17
    && (forall k :: 0 <= k < 6 ==> r.macText[3 * k] == r.mac[2 * k] && r.macText[3 * k + 1] == r.mac[2 * k + 1])
    && (forall k :: 0 <= k < 5 ==> r.macText[3 * k + 2] == ':')
    && (forall i :: 0 <= i < |ifName| && ifName[i].0 == r.ifIndex ==>
          exists j :: 0 <= j < |ifName| && ifName[j] == (r.ifIndex, r.ifName))
    && ((forall i :: 0 <= i < |ifName| ==> ifName[i].0 != r.ifIndex) ==> r.ifName == "if" + r.ifIndex)
  }

  /** Some record has an address on an interface. */
  predicate Listed(records: seq<Record>, octets: seq<int>, ifIndex: string) {
    exists j :: 0 <= j < |records| && Reads(records[j].mac, octets) && records[j].ifIndex == ifIndex
  }

  /** Every address that a cell says is on an interface has its record. */
  ghost predicate AllListed(records: seq<Record>, cells: Dict<string, string>, vlanAware: bool,
                            baseIf: Dict<string, string>)
  {
    forall i, vlan, octets, ifIndex ::
      0 <= i < |cells| && Says(cells[i], vlanAware, baseIf, vlan, octets, ifIndex) ==> Listed(records, octets, ifIndex)
  }

  /** A record is what some cell is the first to say, with that cell's VLAN. */
  ghost predicate Sourced(r: Record, cells: Dict<string, string>, vlanAware: bool, baseIf: Dict<string, string>) {
    exists i, octets ::
      0 <= i < |cells| && SaysFirst(cells, i, vlanAware, baseIf, r.vlan, octets, r.ifIndex) && Reads(r.mac, octets)
  }

  /** The records of a device, in terms of what the cells of its tables say: all of that, nothing else, nothing twice. */
  ghost predicate Assembled(records: seq<Record>, cells: Dict<string, string>, vlanAware: bool,
                            baseIf: Dict<string, string>, ifName: Dict<string, string>)
  {
    && AllListed(records, cells, vlanAware, baseIf)
    && (forall j :: 0 <= j < |records| ==> Sourced(records[j], cells, vlanAware, baseIf) && Labelled(records[j], ifName))
    && (forall j, k :: 0 <= j < k < |records| ==>
          records[j].mac != records[k].mac || records[j].ifIndex != records[k].ifIndex)
  }

  lemma PairFirst(a: char, b: char, rest: string, s: string, k: nat)
    requires s == [a] + ([b] + (":" + rest))
    ensures |s| == |rest| + 3 && s[0] == a && s[1] == b && s[2] == ':'
    ensures k < |rest| ==> s[k + 3] == rest[k]
  {
  }

  lemma {:induction false} PairsLength(m: string, n: nat)
    requires |m| == 2 * n && n > 0
    ensures |Pairs(m)| == 3 * n - 1
  {
    if n > 1 {
      PairsLength(m[2..], n - 1);
      PairFirst(m[0], m[1], Pairs(m[2..]), Pairs(m), 0);
    }
  }

  /** The text of pairs: their characters at 3k and 3k + 1, a colon behind each but the last. */
  lemma {:induction false} PairsAt(m: string, n: nat, k: nat)
    requires |m| == 2 * n && k < n
    ensures |Pairs(m)| == 3 * n - 1 && Pairs(m)[3 * k] == m[2 * k] && Pairs(m)[3 * k + 1] == m[2 * k + 1]
    ensures k < n - 1 ==> Pairs(m)[3 * k + 2] == ':'
  {
    PairsLength(m, n);
    if n > 1 {
      var rest := Pairs(m[2..]);
      PairFirst(m[0], m[1], rest, Pairs(m), 0);
      if k > 0 {
        PairsAt(m[2..], n - 1, k - 1);
        PairFirst(m[0], m[1], rest, Pairs(m), 3 * k - 3);
        PairFirst(m[0], m[1], rest, Pairs(m), 3 * k - 2);
        PairFirst(m[0], m[1], rest, Pairs(m), 3 * k - 1);
      }
    }
  }

  lemma RecordLabelled(r: Raw, count: nat, ifName: Dict<string, string>)
    requires Canonical(r.mac)
    ensures Labelled(RecordOf(r, count, ifName), ifName)
  {
    NormalizeFormat(r.mac);
    HexDigitsOf(r.mac);
    PairsLength(r.mac, 6);
    forall k | 0 <= k < 6
      ensures Pairs(r.mac)[3 * k] == r.mac[2 * k] && Pairs(r.mac)[3 * k + 1] == r.mac[2 * k + 1]
      ensures k < 5 ==> Pairs(r.mac)[3 * k + 2] == ':'
    {
      PairsAt(r.mac, 6, k);
    }
    var i := IndexOf(ifName, r.ifIndex);
    if i < |ifName| {
      assert ifName[i] == (r.ifIndex, Get(ifName, r.ifIndex));
    }
  }

  /** Where a usable row comes from, and that the rows before it come from the cells before. */
  lemma {:induction false} RowOrigin(learned: seq<Option<Raw>>, n: nat, x: nat) returns (i: nat)
    requires n <= |learned| && x < |RawRows(learned, n)|
    ensures i < n && learned[i] == Some(RawRows(learned, n)[x]) && RawRows(learned, i) == RawRows(learned, n)[..x]
  {
    var before := RawRows(learned, n - 1);
    if x < |before| {
      i := RowOrigin(learned, n - 1, x);
      assert RawRows(learned, n)[..x] == before[..x];
    } else {
      i := n - 1;
      assert RawRows(learned, n)[..x] == before;
    }
  }

  /** What an earlier cell says is in an earlier row. */
  lemma {:induction false} EarlierRow(learned: seq<Option<Raw>>, raw: seq<Raw>, cells: Dict<string, string>,
                                      vlanAware: bool, baseIf: Dict<string, string>, i: nat, x: nat, k: nat, v: int, octets: seq<int>)
    requires learned == Cells(Ports(baseIf), vlanAware, cells)
    requires k < i <= |cells| && x < |raw| && RawRows(learned, i) == raw[..x]
    ensures Reads(raw[x].mac, octets) && Says(cells[k], vlanAware, baseIf, v, octets, raw[x].ifIndex) ==>
              exists y :: 0 <= y < x && SamePort(raw[y], raw[x])
  {
    if Reads(raw[x].mac, octets) && Says(cells[k], vlanAware, baseIf, v, octets, raw[x].ifIndex) {
      SaidIsLearned(baseIf, vlanAware, cells[k], v, octets, raw[x].ifIndex);
      var q := learned[k].value;
      ReadsUnique(q.mac, raw[x].mac, octets);
      RawRowsAre(learned, i, q);
      var y :| 0 <= y < x && raw[..x][y] == q;
      assert SamePort(raw[y], raw[x]);
    }
  }

  /** A row that is the first of its address and interface comes from the first cell that says so. */
  lemma {:induction false} FirstRowSaysFirst(cells: Dict<string, string>, vlanAware: bool,
                                             baseIf: Dict<string, string>, raw: seq<Raw>, x: nat)
    returns (i: nat, octets: seq<int>)
    requires raw == RawRows(Cells(Ports(baseIf), vlanAware, cells), |cells|) && x < |raw| && IsFirst(raw, x)
    ensures i < |cells| && SaysFirst(cells, i, vlanAware, baseIf, raw[x].vlan, octets, raw[x].ifIndex)
    ensures Reads(raw[x].mac, octets)
  {
    var learned := Cells(Ports(baseIf), vlanAware, cells);
    i := RowOrigin(learned, |cells|, x);
    octets := LearnedIsSaid(baseIf, vlanAware, cells[i]);
    forall k, v | 0 <= k < i ensures !Says(cells[k], vlanAware, baseIf, v, octets, raw[x].ifIndex) {
      if Says(cells[k], vlanAware, baseIf, v, octets, raw[x].ifIndex) {
        EarlierRow(learned, raw, cells, vlanAware, baseIf, i, x, k, v, octets);
      }
    }
  }

  /** Some row has an address on an interface. */
  predicate AmongRows(rows: seq<Raw>, octets: seq<int>, ifIndex: string) {
    exists x :: 0 <= x < |rows| && Reads(rows[x].mac, octets) && rows[x].ifIndex == ifIndex
  }

  lemma KnownAmong(rows: seq<Raw>, r: Raw, octets: seq<int>)
    requires Known(rows, r) && Reads(r.mac, octets)
    ensures AmongRows(rows, octets, r.ifIndex)
  {
    var x :| 0 <= x < |rows| && SamePort(rows[x], r);
    assert Reads(rows[x].mac, octets) && rows[x].ifIndex == r.ifIndex;
  }

  lemma {:induction false} CellsSaid(cells: Dict<string, string>, vlanAware: bool, baseIf: Dict<string, string>,
                                     raw: seq<Raw>, i: nat, vlan: int, octets: seq<int>, ifIndex: string)
    requires raw == RawRows(Cells(Ports(baseIf), vlanAware, cells), |cells|) && i < |cells|
    ensures Says(cells[i], vlanAware, baseIf, vlan, octets, ifIndex) ==> AmongRows(Dedup(raw, |raw|), octets, ifIndex)
  {
    if Says(cells[i], vlanAware, baseIf, vlan, octets, ifIndex) {
      var learned := Cells(Ports(baseIf), vlanAware, cells);
      SaidIsLearned(baseIf, vlanAware, cells[i], vlan, octets, ifIndex);
      var q := learned[i].value;
      RawRowsAre(learned, |cells|, q);
      var y :| 0 <= y < |raw| && raw[y] == q;
      DedupKnows(raw, |raw|, y);
      KnownAmong(Dedup(raw, |raw|), q, octets);
    }
  }

  lemma RawIsCanonical(r: Raw, octets: seq<int>)
    requires |octets| == 6 && Reads(r.mac, octets)
    ensures Canonical(r.mac)
  {
    forall k | 0 <= k < 12 ensures IsHexDigit(r.mac[k]) {
      assert PairReads(r.mac, k / 2, octets[k / 2]);
    }
  }

  lemma {:induction false} RowSourced(cells: Dict<string, string>, vlanAware: bool, baseIf: Dict<string, string>,
                   ifName: Dict<string, string>, raw: seq<Raw>, x: nat, count: nat)
    requires raw == RawRows(Cells(Ports(baseIf), vlanAware, cells), |cells|) && x < |raw| && IsFirst(raw, x)
    ensures var r := RecordOf(raw[x], count, ifName);
            Sourced(r, cells, vlanAware, baseIf) && Labelled(r, ifName)
  {
    var i, octets := FirstRowSaysFirst(cells, vlanAware, baseIf, raw, x);
    RawIsCanonical(raw[x], octets);
    RecordLabelled(raw[x], count, ifName);
  }

  /** Records made of deduplicated rows are just those that the cells call for. */
  lemma {:induction false} AssembledFrom(cells: Dict<string, string>, vlanAware: bool, baseIf: Dict<string, string>,
                      ifName: Dict<string, string>, raw: seq<Raw>, d: seq<Raw>, records: seq<Record>)
    requires raw == RawRows(Cells(Ports(baseIf), vlanAware, cells), |cells|) && d == Dedup(raw, |raw|)
    requires |records| == |d|
    requires forall i :: 0 <= i < |records| ==> records[i] == RecordOf(d[i], records[i].portMacCount, ifName)
    ensures Assembled(records, cells, vlanAware, baseIf, ifName)
  {
    forall i, vlan, octets, ifIndex | 0 <= i < |cells| && Says(cells[i], vlanAware, baseIf, vlan, octets, ifIndex)
      ensures Listed(records, octets, ifIndex)
    {
      CellsSaid(cells, vlanAware, baseIf, raw, i, vlan, octets, ifIndex);
      var x :| 0 <= x < |d| && Reads(d[x].mac, octets) && d[x].ifIndex == ifIndex;
      assert Reads(records[x].mac, octets) && records[x].ifIndex == ifIndex;
    }
    forall j | 0 <= j < |records|
      ensures Sourced(records[j], cells, vlanAware, baseIf) && Labelled(records[j], ifName)
    {
      var x := DedupFirst(raw, |raw|, j);
      RowSourced(cells, vlanAware, baseIf, ifName, raw, x, records[j].portMacCount);
    }
    forall j, k | 0 <= j < k < |records|
      ensures records[j].mac != records[k].mac || records[j].ifIndex != records[k].ifIndex
    {
      DedupDistinct(raw, |raw|, j, k);
    }
  }

  /** The number of records on a record's interface. */
  function RecordsOn(records: seq<Record>, ifIndex: string, n: nat): nat
    requires n <= |records|
  {
    if n == 0 then 0 else RecordsOn(records, ifIndex, n - 1) + if records[n - 1].ifIndex == ifIndex then 1 else 0
  }

  lemma {:induction false} RecordsOnIsOnPort(records: seq<Record>, deduped: seq<Raw>, ifIndex: string, n: nat)
    requires n <= |records| && n <= |deduped|
    requires forall i :: 0 <= i < n ==> records[i].ifIndex == deduped[i].ifIndex
    ensures RecordsOn(records, ifIndex, n) == OnPort(deduped, ifIndex, n)
  {
    if n > 0 {
      RecordsOnIsOnPort(records, deduped, ifIndex, n - 1);
    }
  }

  /** The loop over the port table. */
  method ReadPorts(baseIf: Dict<string, string>) returns (ports: map<string, string>)
    ensures ports == Ports(baseIf)
  {
    ports := map[];
    for i := 0 to |baseIf|
      invariant ports == PortMap(Mappings(baseIf), i)
    {
      var ifIndex := Int(baseIf[i].1);
      if ifIndex.None? {
        continue;
      }
      ports := ports[Strip(baseIf[i].0) := Str(ifIndex.value)];
    }
  }

  /**
   * Every learned (mac, ifindex) comes out exactly once, as its first row; port_mac_count is the number of output
   * records on the same interface.
   */
  method AssembleFdb(qFdb: Dict<string, string>, dFdb: Dict<string, string>, baseIf: Dict<string, string>,
                     ifName: Dict<string, string>) returns (records: seq<Record>)
    ensures var deduped := Dedup(Learned(qFdb, dFdb, baseIf), |Learned(qFdb, dFdb, baseIf)|);
            && |records| == |deduped|
            && forall i :: 0 <= i < |records| ==> records[i] == RecordOf(deduped[i], records[i].portMacCount, ifName)
    ensures forall i :: 0 <= i < |records| ==>
              records[i].portMacCount == RecordsOn(records, records[i].ifIndex, |records|)
    ensures if |qFdb| > 0 then Assembled(records, qFdb, true, baseIf, ifName)
            else Assembled(records, dFdb, false, baseIf, ifName)
  {
    var ports := ReadPorts(baseIf);
    var cells := if qFdb != [] then qFdb else dFdb;
    var raw: seq<Raw> := [];
    for i := 0 to |cells|
      invariant raw == RawRows(Cells(ports, qFdb != [], cells), i)
    {
      var r := RawOf(ports, qFdb != [], cells[i]);
      if r.Some? {
        raw := raw + [r.value];
      }
    }
    var deduped, perIf := Deduplicate(raw);
    records := BuildRecords(deduped, perIf, ifName);
    AssembledFrom(cells, qFdb != [], baseIf, ifName, raw, deduped, records);
  }

  /** The last loop: one record per deduplicated row, with the size of its interface's address set. */
  method BuildRecords(deduped: seq<Raw>, perIf: map<string, set<string>>, ifName: Dict<string, string>)
    returns (records: seq<Record>)
    requires Counts(perIf, deduped)
    ensures |records| == |deduped|
    ensures forall i :: 0 <= i < |records| ==> records[i] == RecordOf(deduped[i], records[i].portMacCount, ifName)
    ensures forall i :: 0 <= i < |records| ==>
              records[i].portMacCount == RecordsOn(records, records[i].ifIndex, |records|)
  {
    records := [];
    for i := 0 to |deduped|
      invariant |records| == i
      invariant forall j :: 0 <= j < i ==>
        records[j] == RecordOf(deduped[j], OnPort(deduped, deduped[j].ifIndex, |deduped|), ifName)
    {
      assert |MacsOn(perIf, deduped[i].ifIndex)| == OnPort(deduped, deduped[i].ifIndex, |deduped|);
      records := records + [RecordOf(deduped[i], |MacsOn(perIf, deduped[i].ifIndex)|, ifName)];
    }
    forall i | 0 <= i < |records| ensures records[i].portMacCount == RecordsOn(records, records[i].ifIndex, |records|) {
      RecordsOnIsOnPort(records, deduped, records[i].ifIndex, |records|);
    }
  }
}
