/**
 * handlers/base.py: what every DNSBL handler shares. The DNS query itself is
 * an input: a resolver maps a query name to an outcome, and `_get_a_record`
 * turns that outcome into the first address, no address, or the exception it
 * raises. A Python exception leaving a handler is the `Raised` result.
 */
module DnsblBase {
  import opened PyStr
  import opened Models
  import IpUtils

  /** What `dns.resolver.resolve(name, 'A')` does: answers (at least one), NXDOMAIN, or any other failure. */
  datatype Outcome = Found(first: string, others: seq<string>) | NxDomain | Failed(msg: string)

  type Resolver = string -> Outcome

  /** What `_get_a_record` gives: the first address, None, or the exception it raises. */
  datatype Record = Answer(ip: string) | NoRecord | LookupError(msg: string)

  /** What a handler's `check` gives: the `(is_listed, details)` pair, or the message of the exception it lets escape. */
  datatype Checked = Returned(listed: bool, details: string) | Raised(msg: string)

  const LookupErrorPrefix := "DNS lookup error: "

  // ---------------------------------------------------------------------
  // _get_lookup_name and _get_a_record
  // ---------------------------------------------------------------------

  /**
   * `_get_lookup_name`: the reversed address (section 2.1 of RFC 5782) or
   * the domain itself (section 3 of RFC 5782), a dot, then the zone.
   */
  function LookupName(target: string, zone: string): (name: string)
    ensures |name| == |target| + 1 + |zone|
    ensures name[|target|] == '.' && name[|target| + 1..] == zone
    ensures IpUtils.IsValidIp(target) ==> IpUtils.ReverseIp(name[..|target|]) == target
    ensures !IpUtils.IsValidIp(target) ==> name[..|target|] == target
  {
    if IpUtils.IsValidIp(target) then
      IpUtils.ReverseIpLength(target);
      IpUtils.ReverseIpInvolution(target);
      var name := IpUtils.ReverseIp(target) + "." + zone;
      assert name[..|target|] == IpUtils.ReverseIp(target);
      name
    else
      var name := target + "." + zone;
      assert name[..|target|] == target;
      name
  }

  /** The same target under two zones gives two different names unless the zones agree. */
  lemma LookupNameSeparatesZones(target: string, zone1: string, zone2: string)
    requires zone1 != zone2
    ensures LookupName(target, zone1) != LookupName(target, zone2)
  {
    var n1, n2 := LookupName(target, zone1), LookupName(target, zone2);
    if |zone1| == |zone2| {
      assert n1[|target| + 1..] != n2[|target| + 1..];
    }
  }

  /** `_get_a_record`: only the first answer counts, NXDOMAIN is "no address", anything else is raised. */
  function GetARecord(resolve: Resolver, lookup: string): (rec: Record)
    ensures rec.Answer? <==> resolve(lookup).Found?
    ensures rec.Answer? ==> rec.ip == resolve(lookup).first
    ensures rec.NoRecord? <==> resolve(lookup) == NxDomain
    ensures rec.LookupError? <==> resolve(lookup).Failed?
    ensures rec.LookupError? ==> rec.msg == LookupErrorPrefix + resolve(lookup).msg
  {
    match resolve(lookup)
    case Found(first, _) => Answer(first)
    case NxDomain => NoRecord
    case Failed(m) => LookupError(LookupErrorPrefix + m)
  }

  /** What a handler's `check` looks up: the A record of the target's name under the zone. */
  function Lookup(resolve: Resolver, target: string, zone: string): Record {
    GetARecord(resolve, LookupName(target, zone))
  }

  /** Python's `not return_ip`: no record, or an empty address string. */
  predicate Absent(rec: Record) {
    rec.NoRecord? || (rec.Answer? && rec.ip == "")
  }

  // ---------------------------------------------------------------------
  // check
  // ---------------------------------------------------------------------

  const ReturnIpMarker := "(Return IP: "

  /** The details text of a listing: a description, then the return address in `(Return IP: …)`. */
  function Tagged(desc: string, ip: string): string {
    desc + " " + ReturnIpMarker + ip + ")"
  }

  /**
   * The base `check` over a return-code table and a rate-limit table: no
   * address is "Not listed", a rate-limit address is not listed with that
   * table's message, and every other address is listed.
   */
  function Check(returnCodes: map<string, string>, rateLimitCodes: map<string, string>, rec: Record): (r: Checked)
    ensures r.Raised? <==> rec.LookupError?
    ensures r.Raised? ==> r.msg == rec.msg
    ensures Absent(rec) ==> r == Returned(false, "Not listed")
    ensures r.Returned? ==> (r.listed <==> !Absent(rec) && rec.ip !in rateLimitCodes)
    ensures r.Returned? && !Absent(rec) && rec.ip in rateLimitCodes ==> r.details == rateLimitCodes[rec.ip]
    ensures r.Returned? && r.listed ==>
      r.details == Tagged(if rec.ip in returnCodes then returnCodes[rec.ip] else "Listed", rec.ip)
  {
    match rec
    case LookupError(m) => Raised(m)
    case NoRecord => Returned(false, "Not listed")
    case Answer(ip) =>
      if ip == "" then Returned(false, "Not listed")
      else if ip in rateLimitCodes then Returned(false, rateLimitCodes[ip])
      else if ip in returnCodes then Returned(true, Tagged(returnCodes[ip], ip))
      else Returned(true, Tagged("Listed", ip))
  }

  /**
   * The `check` that Barracuda, SpamCop, Blocklist.de and Mailspike write
   * out for themselves: the base one without the rate-limit test, which for
   * a handler with no rate-limit table changes nothing.
   */
  function TableCheck(returnCodes: map<string, string>, rec: Record): (r: Checked)
    ensures r == Check(returnCodes, map[], rec)
  {
    match rec
    case LookupError(m) => Raised(m)
    case NoRecord => Returned(false, "Not listed")
    case Answer(ip) =>
      if ip == "" then Returned(false, "Not listed")
      else if ip in returnCodes then Returned(true, Tagged(returnCodes[ip], ip))
      else Returned(true, Tagged("Listed", ip))
  }

  /** A rate-limit entry wins over a return-code entry for the same address. */
  lemma RateLimitWins(returnCodes: map<string, string>, rateLimitCodes: map<string, string>, ip: string)
    requires ip != "" && ip in rateLimitCodes && ip in returnCodes
    ensures Check(returnCodes, rateLimitCodes, Answer(ip)) == Returned(false, rateLimitCodes[ip])
  {
  }

  // ---------------------------------------------------------------------
  // create_result
  // ---------------------------------------------------------------------

  /**
   * `details.split("(Return IP: ")[1].rstrip(")")` when the marker occurs:
   * the text between the first and second marker, closing parentheses dropped.
   */
  function ExtractReturnIp(details: string): (r: Option<string>)
    ensures r.Some? <==> Contains(details, ReturnIpMarker)
    ensures r.Some? ==> r.value == [] || r.value[|r.value| - 1] != ')'
  {
    if Contains(details, ReturnIpMarker) then
      var parts := Split(details, ReturnIpMarker);
      assert |parts| >= 2;
      Some(RStripChar(parts[1], ')'))
    else None
  }

  /** The marker's only colon is its eleventh character. */
  lemma MarkerColon()
    ensures |ReturnIpMarker| == 12 && ReturnIpMarker[10] == ':'
    ensures forall j :: 0 <= j < 12 && j != 10 ==> ReturnIpMarker[j] != ':'
  {
  }

  /** No marker occurs in `Tagged(desc, ip)` before the one after the description. */
  lemma TaggedFirstMarker(desc: string, ip: string)
    requires ':' !in desc
    ensures Find(Tagged(desc, ip), ReturnIpMarker) == |desc| + 1
  {
    var s := Tagged(desc, ip);
    var m := ReturnIpMarker;
    MarkerColon();
    assert s == desc + " " + m + ip + ")";
    assert s[|desc| + 1..|desc| + 13] == m;
    forall k: nat | k < |desc| + 1 ensures !OccursAt(s, m, k) {
      if k + 12 <= |s| {
        assert s[k + 10] != ':' by {
          if k + 10 < |desc| {
            assert s[k + 10] == desc[k + 10] && desc[k + 10] in desc;
          } else if k + 10 > |desc| {
            assert s[k + 10] == m[k + 9 - |desc|];
          }
        }
        assert s[k..k + 12][10] == s[k + 10];
      }
    }
    FindIs(s, m, |desc| + 1);
  }

  /**
   * The round trip between `check` and `create_result`: the address put into
   * the details is the one `create_result` reads back, for any description
   * and address without a colon, the address not ending in ')'.
   */
  lemma TaggedRoundTrip(desc: string, ip: string)
    requires ':' !in desc && ':' !in ip && (ip == [] || ip[|ip| - 1] != ')')
    ensures ExtractReturnIp(Tagged(desc, ip)) == Some(ip)
  {
    var s := Tagged(desc, ip);
    var m := ReturnIpMarker;
    TaggedFirstMarker(desc, ip);
    var rest := s[|desc| + 1 + |m|..];
    assert rest == ip + ")";
    MarkerColon();
    assert ':' !in rest;
    NoOccurrenceWithout(rest, m, 10);
    assert s[..|desc| + 1] == desc + " ";
    assert Split(s, m) == [desc + " "] + Split(rest, m);
    assert Split(s, m)[1] == ip + ")";
    RStripCharAppended(ip, ')');
    RStripCharUnchanged(ip, ')');
  }

  /**
   * A listing found by the base `check` carries its return address back to
   * `create_result`, whenever the table's descriptions and the address hold
   * no colon and the address does not end in ')'.
   */
  lemma ListedRoundTrip(returnCodes: map<string, string>, rateLimitCodes: map<string, string>, ip: string)
    requires forall k | k in returnCodes :: ':' !in returnCodes[k]
    requires ip != "" && ip !in rateLimitCodes && ':' !in ip && ip[|ip| - 1] != ')'
    ensures Check(returnCodes, rateLimitCodes, Answer(ip)).Returned?
    ensures Check(returnCodes, rateLimitCodes, Answer(ip)).listed
    ensures ExtractReturnIp(Check(returnCodes, rateLimitCodes, Answer(ip)).details) == Some(ip)
  {
    assert ':' !in "Listed";
    TaggedRoundTrip(if ip in returnCodes then returnCodes[ip] else "Listed", ip);
  }

  // ---------------------------------------------------------------------
  // Details shared by the handlers that catch their own errors
  // ---------------------------------------------------------------------

  /** What SpamRATS, Hostkarma and DroneBL report for an exception they catch. */
  const ErrorPrefix := "Error: "

  const UnknownCodePrefix := "Listed (Unknown return code: "

  /** The details SpamRATS and Hostkarma give for an address missing from their tables. */
  function UnknownCode(ip: string): string {
    UnknownCodePrefix + ip + ")"
  }

  /** The prefix's only colon is its twenty-eighth character. */
  lemma UnknownCodePrefixColon()
    ensures |UnknownCodePrefix| == 29 && UnknownCodePrefix[27] == ':'
    ensures UnknownCodePrefix[17] != '(' && UnknownCodePrefix[18] != 'R'
    ensures forall j :: 0 <= j < 29 && j != 27 ==> UnknownCodePrefix[j] != ':'
  {
  }

  /**
   * Unknown-code details carry no return address: neither the marker that
   * `create_result` looks for nor the "Return IP:" that the display looks for
   * occurs in them.
   */
  lemma UnknownCodeHasNoReturnIp(ip: string)
    requires ':' !in ip
    ensures !Contains(UnknownCode(ip), ReturnIpMarker)
    ensures !Contains(UnknownCode(ip), "Return IP:")
  {
    var s := UnknownCode(ip);
    var n := |UnknownCodePrefix|;
    UnknownCodePrefixColon();
    assert s == UnknownCodePrefix + ip + ")";
    forall k | 0 <= k < |s| && k != 27 ensures s[k] != ':' {
      if k < n {
        assert s[k] == UnknownCodePrefix[k];
      } else if k < n + |ip| {
        assert s[k] == ip[k - n] && ip[k - n] in ip;
      }
    }
    MarkerColon();
    assert s[17] == UnknownCodePrefix[17] && s[18] == UnknownCodePrefix[18];
    NoOccurrenceByAnchor(s, ReturnIpMarker, 10);
    NoOccurrenceByAnchor(s, "Return IP:", 9);
  }

  /** The first colour of an ordered colour table whose address list holds `ip`. */
  function FirstColor(colorLogic: seq<(string, seq<string>)>, ip: string): (r: Option<string>)
    ensures r.None? <==> forall i :: 0 <= i < |colorLogic| ==> ip !in colorLogic[i].1
    ensures r.Some? ==> exists i :: 0 <= i < |colorLogic| && colorLogic[i].0 == r.value && ip in colorLogic[i].1
                                && (forall j :: 0 <= j < i ==> ip !in colorLogic[j].1)
  {
    if colorLogic == [] then None
    else if ip in colorLogic[0].1 then Some(colorLogic[0].0)
    else
      var r := FirstColor(colorLogic[1..], ip);
      if r.Some? then
        var i :| 0 <= i < |colorLogic[1..]| && colorLogic[1..][i].0 == r.value && ip in colorLogic[1..][i].1
                 && (forall j :: 0 <= j < i ==> ip !in colorLogic[1..][j].1);
        assert colorLogic[i + 1].0 == r.value && ip in colorLogic[i + 1].1;
        r
      else r
  }

  /** Where no list of the table names the same address twice, `FirstColor` is the colour that lists it. */
  lemma FirstColorOfUnique(colorLogic: seq<(string, seq<string>)>, ip: string, i: nat)
    requires i < |colorLogic| && ip in colorLogic[i].1
    requires forall j :: 0 <= j < |colorLogic| && j != i ==> ip !in colorLogic[j].1
    ensures FirstColor(colorLogic, ip) == Some(colorLogic[i].0)
  {
    var r := FirstColor(colorLogic, ip);
    var k :| 0 <= k < |colorLogic| && colorLogic[k].0 == r.value && ip in colorLogic[k].1
             && (forall j :: 0 <= j < k ==> ip !in colorLogic[j].1);
    assert k == i;
  }

  /** `create_result`: the service's fields, the details, and a status coloured by `COLOR_LOGIC` where it applies. */
  function CreateResult(service: Service, colorLogic: seq<(string, seq<string>)>, isListed: bool, details: string): (r: DnsblResult)
    ensures r.listName == service.name && r.description == service.description
    ensures r.category == service.category && r.details == details
    ensures var ip := ExtractReturnIp(details);
      if ip.Some? && ip.value != "" && FirstColor(colorLogic, ip.value).Some?
      then r.status == Capitalize(FirstColor(colorLogic, ip.value).value)
      else r.status == (if isListed then "Listed" else "Not Listed")
  {
    var returnIp := ExtractReturnIp(details);
    var status :=
      if returnIp.Some? && returnIp.value != "" && colorLogic != [] && FirstColor(colorLogic, returnIp.value).Some?
      then Capitalize(FirstColor(colorLogic, returnIp.value).value)
      else if isListed then "Listed" else "Not Listed";
    DnsblResult(service.name, service.description, service.category, status, details)
  }

  /** With an empty colour table the status depends on the listing alone. */
  lemma CreateResultWithoutColors(service: Service, isListed: bool, details: string)
    ensures CreateResult(service, [], isListed, details).status == if isListed then "Listed" else "Not Listed"
  {
  }
}
