/**
 * reputationchecker.py, `display_results`: the colour of each row's status
 * and the details text it shows, both read back from the details string
 * the check produced.
 */
module ResultDisplay {
  import opened PyStr
  import opened Models
  import opened DnsblBase
  import ReputationChecker
  import Spamhaus
  import Barracuda
  import SpamCop
  import DroneBL
  import BlocklistDE
  import SpamRATS
  import Hostkarma
  import Mailspike

  /** What the display searches the details for. */
  const DisplayMarker := "Return IP:"

  /**
   * `details.split("Return IP:")[1].strip().split(")")[0].strip()` when the
   * marker occurs: the text after the first marker, up to the next closing
   * parenthesis, without surrounding whitespace.
   */
  function DisplayReturnIp(details: string): (r: Option<string>)
    ensures r.Some? <==> Contains(details, DisplayMarker)
    ensures r.Some? ==> r.value == [] || (!IsSpace(r.value[0]) && !IsSpace(r.value[|r.value| - 1]))
    ensures r.Some? ==> ')' !in r.value
  {
    if Contains(details, DisplayMarker) then
      var parts := Split(details, DisplayMarker);
      assert |parts| >= 2;
      var pieces := Split(Strip(parts[1]), ")");
      SplitPiecesLackChar(Strip(parts[1]), ')');
      StripKeepsOut(pieces[0], ')', IsSpace);
      Some(Strip(pieces[0]))
    else None
  }

  /** The handler's `COLOR_LOGIC`: only Hostkarma fills in the base class's empty one. */
  function ColorLogicOf(key: string): seq<(string, seq<string>)> {
    if key == "hostkarma" then Hostkarma.ColorLogic else []
  }

  /** Each handler's `RETURN_CODES`; CINSscore keeps the base class's empty one. */
  function ReturnCodesOf(key: string): map<string, string> {
    if key == "spamhaus" then Spamhaus.ReturnCodes
    else if key == "barracuda" then Barracuda.ReturnCodes
    else if key == "spamcop" then SpamCop.ReturnCodes
    else if key == "dronebl" then DroneBL.ReturnCodes
    else if key == "blocklist_de" then BlocklistDE.ReturnCodes
    else if key == "spamrats" then SpamRATS.ReturnCodes
    else if key == "hostkarma" then Hostkarma.ReturnCodes
    else if key == "mailspike" then Mailspike.ReturnCodes
    else map[]
  }

  /**
   * The style of the status cell: the first colour of the handler's
   * `COLOR_LOGIC` whose addresses hold the address read from the details,
   * otherwise red for "Listed" and green for anything else.
   */
  function StatusStyle(r: DnsblResult): (style: string)
    ensures style == "red" || style == "yellow" || style == "green"
    ensures r.listName != "hostkarma" ==> style == (if r.status == "Listed" then "red" else "green")
  {
    var ip := DisplayReturnIp(r.details);
    var color :=
      if r.listName in ReputationChecker.HandlerKeys && ip.Some? && ip.value != "" then
        FirstColor(ColorLogicOf(r.listName), ip.value)
      else None;
    Hostkarma.ColorNames();
    var style := if color.Some? then color.value else "white";
    if style == "white" then (if r.status == "Listed" then "red" else "green") else style
  }

  /**
   * The details cell: the handler's description of the address read from
   * the details when its `RETURN_CODES` has one, the details otherwise.
   */
  function DisplayDetails(r: DnsblResult): (d: string)
    ensures r.listName !in ReputationChecker.HandlerKeys ==> d == r.details
    ensures d == r.details || d in ReturnCodesOf(r.listName).Values
  {
    var ip := DisplayReturnIp(r.details);
    if r.listName in ReputationChecker.HandlerKeys && ip.Some? && ip.value in ReturnCodesOf(r.listName) then
      ReturnCodesOf(r.listName)[ip.value]
    else r.details
  }

  /** The only colon of " (Return IP: " is its twelfth character. */
  lemma TagColon()
    ensures |" " + ReturnIpMarker| == 13 && (" " + ReturnIpMarker)[11] == ':'
    ensures forall j :: 0 <= j < 11 ==> (" " + ReturnIpMarker)[j] != ':'
    ensures (" " + ReturnIpMarker)[2..12] == DisplayMarker
  {
  }

  /** In `Tagged(desc, ip)` the display's marker first occurs right after " (". */
  lemma TaggedFirstDisplayMarker(desc: string, ip: string)
    requires ':' !in desc
    ensures Find(Tagged(desc, ip), DisplayMarker) == |desc| + 2
  {
    var s := Tagged(desc, ip);
    var t := " " + ReturnIpMarker;
    var m := DisplayMarker;
    TagColon();
    assert s == desc + t + ip + ")";
    assert s[|desc| + 2..|desc| + 12] == m;
    forall k: nat | k < |desc| + 2 ensures !OccursAt(s, m, k) {
      if k + 10 <= |s| {
        assert s[k + 9] != ':' by {
          if k + 9 < |desc| {
            assert s[k + 9] == desc[k + 9] && desc[k + 9] in desc;
          } else {
            assert s[k + 9] == t[k + 9 - |desc|];
          }
        }
        assert s[k..k + 10][9] == s[k + 9];
      }
    }
    FindIs(s, m, |desc| + 2);
  }

  /** `(" " + ip + ")").strip()` for an address without surrounding whitespace. */
  lemma StripSpacedAddress(ip: string)
    requires ip == [] || (!IsSpace(ip[0]) && !IsSpace(ip[|ip| - 1]))
    ensures Strip(" " + ip + ")") == ip + ")"
  {
    var t := ip + ")";
    assert " " + ip + ")" == [' '] + t;
    assert !IsSpace(')') && IsSpace(' ');
    assert !IsSpace(t[0]) by {
      if ip != [] {
        assert t[0] == ip[0];
      }
    }
    StripLeftSkipsBlank(t, IsSpace);
    StripLeftKeeps(t, IsSpace);
    StripRightKeeps(t, IsSpace);
  }

  /**
   * The round trip between a handler's details and the display: the address
   * a handler tags its description with is the one the display reads back,
   * whenever the description has no colon and the address has no colon, no
   * closing parenthesis and no surrounding whitespace.
   */
  lemma DisplayReadsTaggedAddress(desc: string, ip: string)
    requires ':' !in desc && Plain(ip)
    ensures DisplayReturnIp(Tagged(desc, ip)) == Some(ip)
  {
    var s := Tagged(desc, ip);
    var m := DisplayMarker;
    TaggedFirstDisplayMarker(desc, ip);
    var rest := s[|desc| + 2 + |m|..];
    assert rest == " " + ip + ")";
    assert ':' !in rest;
    NoOccurrenceWithout(rest, m, 9);
    assert Split(s, m) == [s[..|desc| + 2]] + Split(rest, m);
    assert Split(s, m)[1] == rest;
    ReadSpacedAddress(ip);
  }

  /** The text after the marker, " ip)", reads back as `ip`. */
  lemma ReadSpacedAddress(ip: string)
    requires Plain(ip)
    ensures var pieces := Split(Strip(" " + ip + ")"), ")"); |pieces| >= 1 && Strip(pieces[0]) == ip
  {
    assert ip + ")" == ip + [')'] + "";
    StripSpacedAddress(ip);
    var pieces := Split(ip + ")", ")");
    assert pieces[0] == ip by {
      SplitAppendPiece(ip, ')', "");
      NoOccurrenceWithout(ip, ")", 0);
    }
    assert Strip(ip) == ip by {
      StripUnpadded(ip, IsSpace);
    }
  }

  /**
   * A handler's listing with a known code shows the code's description
   * alone: the display drops the tagged address.
   */
  lemma ListingShowsDescription(r: DnsblResult, ip: string)
    requires r.listName in ReputationChecker.HandlerKeys && ip in ReturnCodesOf(r.listName)
    requires r.details == Tagged(ReturnCodesOf(r.listName)[ip], ip)
    requires ':' !in ReturnCodesOf(r.listName)[ip] && Plain(ip)
    ensures DisplayDetails(r) == ReturnCodesOf(r.listName)[ip]
  {
    DisplayReadsTaggedAddress(ReturnCodesOf(r.listName)[ip], ip);
  }

  /** Spamhaus's SBL listing is shown as "SBL (General spam source)". */
  lemma SpamhausSblShown(description: string, category: string)
    ensures DisplayDetails(DnsblResult("spamhaus", description, category, "Listed",
      Tagged(Spamhaus.ReturnCodes["127.0.0.2"], "127.0.0.2"))) == Spamhaus.ReturnCodes["127.0.0.2"]
  {
    Spamhaus.DescriptionsLackColon();
    HostkarmaAddressesPlain();
    ListingShowsDescription(DnsblResult("spamhaus", description, category, "Listed",
      Tagged(Spamhaus.ReturnCodes["127.0.0.2"], "127.0.0.2")), "127.0.0.2");
  }

  /**
   * DroneBL's table is keyed by the last component of the address, never by
   * an address, so a DroneBL row always shows its own details.
   */
  lemma DroneBLKeepsDetails(r: DnsblResult)
    requires r.listName == "dronebl"
    requires DisplayReturnIp(r.details).Some? ==> '.' in DisplayReturnIp(r.details).value
    ensures DisplayDetails(r) == r.details
  {
    DroneBLKeysLackDot();
  }

  lemma DroneBLKeysLackDot()
    ensures forall k | k in DroneBL.ReturnCodes :: '.' !in k
  {
  }

  /** An address the display reads back unchanged: no colon, no closing parenthesis, no surrounding whitespace. */
  predicate Plain(ip: string) {
    ':' !in ip && ')' !in ip && (ip == [] || (!IsSpace(ip[0]) && !IsSpace(ip[|ip| - 1])))
  }

  /** Hostkarma's known codes are read back unchanged. */
  lemma HostkarmaAddressesPlain()
    ensures forall k | k in Hostkarma.ReturnCodes :: Plain(k)
  {
    assert Plain("127.0.0.1") && Plain("127.0.0.2") && Plain("127.0.0.3") && Plain("127.0.0.4") && Plain("127.0.0.5");
    assert Hostkarma.ReturnCodes.Keys == {"127.0.0.1", "127.0.0.2", "127.0.0.3", "127.0.0.4", "127.0.0.5"};
  }

  /**
   * A Hostkarma listing is shown in the colour `COLOR_LOGIC` gives its
   * address, whatever its status says.
   */
  lemma HostkarmaStyle(r: DnsblResult, ip: string)
    requires r.listName == "hostkarma" && ip != "" && Plain(ip)
    requires exists desc :: ':' !in desc && r.details == Tagged(desc, ip)
    requires FirstColor(Hostkarma.ColorLogic, ip).Some?
    ensures StatusStyle(r) == FirstColor(Hostkarma.ColorLogic, ip).value
  {
    var desc :| ':' !in desc && r.details == Tagged(desc, ip);
    DisplayReadsTaggedAddress(desc, ip);
    Hostkarma.ColorNames();
    assert "hostkarma" in ReputationChecker.HandlerKeys;
  }

  /** A Hostkarma listing is shown under the bare description of its code. */
  lemma HostkarmaDetails(r: DnsblResult, ip: string)
    requires r.listName == "hostkarma" && Plain(ip) && ip in Hostkarma.ReturnCodes
    requires r.details == Tagged(Hostkarma.ReturnCodes[ip], ip)
    ensures DisplayDetails(r) == Hostkarma.ReturnCodes[ip]
  {
    Hostkarma.DescriptionsLackColon();
    assert ReturnCodesOf(r.listName) == Hostkarma.ReturnCodes;
    ListingShowsDescription(r, ip);
  }

  /**
   * Hostkarma's whitelist answer is reported as "Listed", yet its status is
   * shown green, under the bare description.
   */
  lemma HostkarmaWhitelistShownGreen(description: string, category: string)
    ensures var c := Hostkarma.Check(Answer("127.0.0.1"));
      var r := DnsblResult("hostkarma", description, category, ReputationChecker.StatusText(c.listed), c.details);
      r.status == "Listed" && StatusStyle(r) == "green" && DisplayDetails(r) == Hostkarma.ReturnCodes["127.0.0.1"]
  {
    Hostkarma.WhitelistIsListed();
    Hostkarma.ShortTextsLackColon();
    Hostkarma.CodeColors();
    HostkarmaAddressesPlain();
    var c := Hostkarma.Check(Answer("127.0.0.1"));
    var r := DnsblResult("hostkarma", description, category, ReputationChecker.StatusText(c.listed), c.details);
    HostkarmaStyle(r, "127.0.0.1");
    HostkarmaDetails(r, "127.0.0.1");
  }

  /** Hostkarma's blacklist and yellowlist answers are shown red and yellow. */
  lemma HostkarmaListsShownInTheirColours(description: string, category: string)
    ensures var r := DnsblResult("hostkarma", description, category, "Listed",
        Tagged(Hostkarma.ReturnCodes["127.0.0.2"], "127.0.0.2"));
      StatusStyle(r) == "red"
    ensures var r := DnsblResult("hostkarma", description, category, "Listed",
        Tagged(Hostkarma.ReturnCodes["127.0.0.3"], "127.0.0.3"));
      StatusStyle(r) == "yellow"
  {
    Hostkarma.ShortTextsLackColon();
    Hostkarma.CodeColors();
    HostkarmaAddressesPlain();
    HostkarmaStyle(DnsblResult("hostkarma", description, category, "Listed",
        Tagged(Hostkarma.ReturnCodes["127.0.0.2"], "127.0.0.2")), "127.0.0.2");
    HostkarmaStyle(DnsblResult("hostkarma", description, category, "Listed",
        Tagged(Hostkarma.ReturnCodes["127.0.0.3"], "127.0.0.3")), "127.0.0.3");
  }
}
