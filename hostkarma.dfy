/**
 * handlers/hostkarma.py: the Hostkarma handler. Its table runs from the
 * whitelist to the blacklist, every answer is a listing, and its colour
 * table sorts the known answers into red, yellow and green.
 */
module Hostkarma {
  import opened PyStr
  import opened Models
  import opened DnsblBase

  const ReturnCodes: map<string, string> := map[
    "127.0.0.1" := "Whitelist - Trusted nonspam",
    "127.0.0.2" := "Blacklist - Block spam",
    "127.0.0.3" := "Yellowlist - Mix of spam and nonspam",
    // one text, written in two halves so that facts about it stay small
    "127.0.0.4" := "Brownlist - All spam, " + "but not yet enough to blacklist",
    "127.0.0.5" := "NOBL - IP is not a spam only source"
  ]

  /** `COLOR_LOGIC`, in the insertion order in which Python iterates it. */
  const ColorLogic: seq<(string, seq<string>)> := [
    ("red", ["127.0.0.2", "127.0.0.4"]),
    ("yellow", ["127.0.0.3"]),
    ("green", ["127.0.0.1", "127.0.0.5"])
  ]

  /** `check`, its try/except included. */
  function Check(rec: Record): (r: Checked)
    ensures r.Returned?
    ensures rec.LookupError? ==> r == Returned(false, ErrorPrefix + rec.msg)
    ensures Absent(rec) ==> r == Returned(false, "Not listed")
    ensures r.listed <==> rec.Answer? && rec.ip != ""
    ensures r.listed && rec.ip in ReturnCodes ==> r.details == Tagged(ReturnCodes[rec.ip], rec.ip)
    ensures r.listed && rec.ip !in ReturnCodes ==> r.details == UnknownCode(rec.ip)
  {
    match rec
    case LookupError(m) => Returned(false, ErrorPrefix + m)
    case NoRecord => Returned(false, "Not listed")
    case Answer(ip) =>
      if ip == "" then Returned(false, "Not listed")
      else if ip in ReturnCodes then Returned(true, Tagged(ReturnCodes[ip], ip))
      else Returned(true, UnknownCode(ip))
  }

  /** Even the whitelist answer counts as a listing. */
  lemma WhitelistIsListed()
    ensures Check(Answer("127.0.0.1")) == Returned(true, Tagged("Whitelist - Trusted nonspam", "127.0.0.1"))
  {
    assert ReturnCodes["127.0.0.1"] == "Whitelist - Trusted nonspam";
  }

  /** The colour lists hold only known codes, and no code is in two of them. */
  lemma ColorsAreDisjointCodes()
    ensures forall i, ip :: 0 <= i < |ColorLogic| && ip in ColorLogic[i].1 ==> ip in ReturnCodes
    ensures forall i, j, ip :: 0 <= i < j < |ColorLogic| && ip in ColorLogic[i].1 ==> ip !in ColorLogic[j].1
  {
  }

  /** Every known code is in some colour list. */
  lemma ColorsCoverCodes()
    ensures forall ip | ip in ReturnCodes :: exists i :: 0 <= i < |ColorLogic| && ip in ColorLogic[i].1
  {
    assert "127.0.0.2" in ColorLogic[0].1 && "127.0.0.4" in ColorLogic[0].1;
    assert "127.0.0.3" in ColorLogic[1].1;
    assert "127.0.0.1" in ColorLogic[2].1 && "127.0.0.5" in ColorLogic[2].1;
  }

  /** The colours are red, yellow and green. */
  lemma ColorNames()
    ensures forall i | 0 <= i < |ColorLogic| :: ColorLogic[i].0 == "red" || ColorLogic[i].0 == "yellow" || ColorLogic[i].0 == "green"
  {
  }

  /** .2 and .4 are red, .3 is yellow, .1 and .5 are green. */
  lemma CodeColors()
    ensures FirstColor(ColorLogic, "127.0.0.2") == Some("red") && FirstColor(ColorLogic, "127.0.0.4") == Some("red")
    ensures FirstColor(ColorLogic, "127.0.0.3") == Some("yellow")
    ensures FirstColor(ColorLogic, "127.0.0.1") == Some("green") && FirstColor(ColorLogic, "127.0.0.5") == Some("green")
  {
    ColorsAreDisjointCodes();
    FirstColorOfUnique(ColorLogic, "127.0.0.2", 0);
    FirstColorOfUnique(ColorLogic, "127.0.0.4", 0);
    FirstColorOfUnique(ColorLogic, "127.0.0.3", 1);
    FirstColorOfUnique(ColorLogic, "127.0.0.1", 2);
    FirstColorOfUnique(ColorLogic, "127.0.0.5", 2);
  }

  /** The texts of the whitelist, blacklist and yellowlist answers hold no colon. */
  lemma ShortTextsLackColon()
    ensures ':' !in ReturnCodes["127.0.0.1"] && ':' !in ReturnCodes["127.0.0.2"] && ':' !in ReturnCodes["127.0.0.3"]
  {
    assert ReturnCodes["127.0.0.1"] == "Whitelist - Trusted nonspam";
    assert ReturnCodes["127.0.0.2"] == "Blacklist - Block spam";
    assert ReturnCodes["127.0.0.3"] == "Yellowlist - Mix of spam and nonspam";
  }

  /** The brownlist text holds no colon. */
  lemma BrownlistLacksColon()
    ensures ':' !in ReturnCodes["127.0.0.4"]
  {
    var front, back := "Brownlist - All spam, ", "but not yet enough to blacklist";
    assert ReturnCodes["127.0.0.4"] == front + back;
    assert ':' !in front;
    assert ':' !in back;
  }

  /** The NOBL text holds no colon. */
  lemma NoblLacksColon()
    ensures ':' !in ReturnCodes["127.0.0.5"]
  {
    assert ReturnCodes["127.0.0.5"] == "NOBL - IP is not a spam only source";
  }

  /** No text of the table holds a colon. */
  lemma DescriptionsLackColon()
    ensures forall k | k in ReturnCodes :: ':' !in ReturnCodes[k]
  {
    ShortTextsLackColon();
    BrownlistLacksColon();
    NoblLacksColon();
    assert ReturnCodes.Keys == {"127.0.0.1", "127.0.0.2", "127.0.0.3", "127.0.0.4", "127.0.0.5"};
  }

  /** The known codes are plain addresses: no colon, no closing parenthesis at the end. */
  lemma CodesArePlain()
    ensures forall k | k in ReturnCodes :: k != "" && ':' !in k && k[|k| - 1] != ')'
  {
  }

  /**
   * For a table hit the address `create_result` reads back from the details
   * is the return address; an unknown code carries no address back.
   */
  lemma CheckReturnIp(ip: string)
    requires ip != "" && ':' !in ip && ip[|ip| - 1] != ')'
    ensures ip in ReturnCodes ==> ExtractReturnIp(Check(Answer(ip)).details) == Some(ip)
    ensures ip !in ReturnCodes ==> ExtractReturnIp(Check(Answer(ip)).details) == None
  {
    if ip in ReturnCodes {
      DescriptionsLackColon();
      TaggedRoundTrip(ReturnCodes[ip], ip);
    } else {
      UnknownCodeHasNoReturnIp(ip);
    }
  }

  /** The status `create_result` gives such a table hit is its capitalised colour. */
  lemma HitStatus(service: Service, ip: string)
    requires ip in ReturnCodes
    ensures var r := Check(Answer(ip));
      CreateResult(service, ColorLogic, r.listed, r.details).status == Capitalize(FirstColor(ColorLogic, ip).value)
  {
    ColorsCoverCodes();
    var i :| 0 <= i < |ColorLogic| && ip in ColorLogic[i].1;
    CodesArePlain();
    CheckReturnIp(ip);
  }

  /** The colour names as `capitalize` writes them. */
  lemma CapitalizedColors()
    ensures Capitalize("red") == "Red" && Capitalize("yellow") == "Yellow" && Capitalize("green") == "Green"
  {
    CapitalizedWord("red", "Red");
    CapitalizedWord("yellow", "Yellow");
    CapitalizedWord("green", "Green");
  }

  lemma CapitalizedWord(w: string, cap: string)
    requires w != [] && 'a' <= w[0] <= 'z' && forall k :: 0 < k < |w| ==> 'a' <= w[k] <= 'z'
    requires |cap| == |w| && cap[0] == (w[0] as int - 32) as char && cap[1..] == w[1..]
    ensures Capitalize(w) == cap
  {
    assert cap == [cap[0]] + cap[1..];
    CapitalizeLowerWord(w);
  }

  /** The blacklist answer shows as "Red". */
  lemma BlacklistIsRed(service: Service)
    ensures var r := Check(Answer("127.0.0.2")); CreateResult(service, ColorLogic, r.listed, r.details).status == "Red"
  {
    CodeColors();
    HitStatus(service, "127.0.0.2");
    CapitalizedColors();
  }

  /** The yellowlist answer shows as "Yellow". */
  lemma YellowlistIsYellow(service: Service)
    ensures var r := Check(Answer("127.0.0.3")); CreateResult(service, ColorLogic, r.listed, r.details).status == "Yellow"
  {
    CodeColors();
    HitStatus(service, "127.0.0.3");
    CapitalizedColors();
  }

  /** The whitelist answer, although listed, shows as "Green". */
  lemma WhitelistIsGreen(service: Service)
    ensures var r := Check(Answer("127.0.0.1")); CreateResult(service, ColorLogic, r.listed, r.details).status == "Green"
  {
    CodeColors();
    HitStatus(service, "127.0.0.1");
    CapitalizedColors();
  }
}
