/**
 * handlers/dronebl.py: the DroneBL handler. Its table is keyed by the last
 * component of the return address, not by the whole address, and it turns
 * every error into a result instead of letting it escape.
 */
module DroneBL {
  import opened PyStr
  import opened Models
  import opened DnsblBase
  import Validators

  const ReturnCodes: map<string, string> := map[
    "2" := "Sample",
    "3" := "IRC Drone",
    "5" := "Bottler",
    "6" := "Unknown spambot or drone",
    "7" := "DDOS Drone",
    "8" := "SOCKS Proxy",
    "9" := "HTTP Proxy",
    "10" := "ProxyChain",
    "11" := "Web Page Proxy",
    "12" := "Open DNS Resolver",
    "13" := "Brute force attackers",
    "14" := "Open Wingate Proxy",
    "15" := "Compromised router / gateway",
    "16" := "Autorooting worms",
    "17" := "Automatically determined botnet IPs (experimental)",
    "18" := "DNS/MX type hostname detected on IRC",
    "255" := "Unknown"
  ]

  /** The `dict.get` default for a code the table lacks. */
  const UnknownThreatType := "Unknown Threat Type"

  /** `return_ip.split('.')[-1]`: a dot-free tail of the address. */
  function Code(ip: string): (code: string)
    ensures '.' !in code
    ensures |code| <= |ip| && ip[|ip| - |code|..] == code
  {
    var parts := Split(ip, ".");
    SplitPiecesLackChar(ip, '.');
    JoinSplit(ip, ".");
    Validators.JoinEndsWithLast(parts, ".");
    parts[|parts| - 1]
  }

  /** The code is what follows the last dot, so only the last component counts. */
  lemma CodeIsLastComponent(prefix: string, code: string)
    requires '.' !in code
    ensures Code(prefix + "." + code) == code
  {
    SplitAppendPiece(prefix, '.', code);
  }

  /** A string without a dot is its own code. */
  lemma CodeOfDotless(ip: string)
    requires '.' !in ip
    ensures Code(ip) == ip
  {
    NoOccurrenceWithout(ip, ".", 0);
  }

  /** `RETURN_CODES.get(code, "Unknown Threat Type")`. */
  function Threat(code: string): string {
    if code in ReturnCodes then ReturnCodes[code] else UnknownThreatType
  }

  /** The details of a listing: threat, code and address. */
  function Details(threat: string, code: string, ip: string): string {
    threat + " (Code: " + code + ", Return IP: " + ip + ")"
  }

  /**
   * `check`: "Not Listed" (capital L) without an address, a listing for every
   * address, and "Error: …" for a lookup error, which never escapes.
   */
  function Check(rec: Record): (r: Checked)
    ensures r.Returned?
    ensures rec.LookupError? ==> r == Returned(false, ErrorPrefix + rec.msg)
    ensures Absent(rec) ==> r == Returned(false, "Not Listed")
    ensures r.listed <==> rec.Answer? && rec.ip != ""
    ensures r.listed ==> r.details == Details(Threat(Code(rec.ip)), Code(rec.ip), rec.ip)
  {
    match rec
    case LookupError(m) => Returned(false, ErrorPrefix + m)
    case NoRecord => Returned(false, "Not Listed")
    case Answer(ip) =>
      if ip == "" then Returned(false, "Not Listed")
      else
        var code := Code(ip);
        Returned(true, Details(Threat(code), code, ip))
  }

  /** Two addresses that end in the same component get the same threat type. */
  lemma SameLastComponentSameThreat(prefix1: string, prefix2: string, code: string)
    requires '.' !in code
    ensures Check(Answer(prefix1 + "." + code)).listed && Check(Answer(prefix2 + "." + code)).listed
    ensures Check(Answer(prefix1 + "." + code)).details == Details(Threat(code), code, prefix1 + "." + code)
    ensures Check(Answer(prefix2 + "." + code)).details == Details(Threat(code), code, prefix2 + "." + code)
  {
    CodeIsLastComponent(prefix1, code);
    CodeIsLastComponent(prefix2, code);
  }

  /** 127.0.0.9 is an HTTP proxy. */
  lemma HttpProxyListing()
    ensures Check(Answer("127.0.0.9")) == Returned(true, "HTTP Proxy (Code: 9, Return IP: 127.0.0.9)")
  {
    HttpProxyDetails();
    assert '.' !in "9";
    assert "127.0.0.9" == "127.0.0" + "." + "9";
    CodeIsLastComponent("127.0.0", "9");
    assert ReturnCodes["9"] == "HTTP Proxy";
  }

  lemma HttpProxyDetails()
    ensures Details("HTTP Proxy", "9", "127.0.0.9") == "HTTP Proxy (Code: 9, Return IP: 127.0.0.9)"
  {
  }

  /** Codes 1, 4 and 200 are not in the table, and are still listed under the default. */
  lemma UnknownCodes()
    ensures Threat("1") == UnknownThreatType && Threat("4") == UnknownThreatType && Threat("200") == UnknownThreatType
  {
    assert "1" !in ReturnCodes;
    assert "4" !in ReturnCodes;
    assert "200" !in ReturnCodes;
  }

  /** Code 255 has its own entry, "Unknown", which is not the default text. */
  lemma Code255IsNotTheDefault()
    ensures Threat("255") == "Unknown" && Threat("255") != UnknownThreatType
  {
    assert ReturnCodes["255"] == "Unknown";
  }
}
