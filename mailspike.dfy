/**
 * handlers/mailspike.py: the Mailspike reputation handler, from L5 (worst)
 * to H5 (excellent), errors propagating. Every reputation level, the good
 * ones included, counts as a listing.
 */
module Mailspike {
  import opened Models
  import opened DnsblBase

  const ReturnCodes: map<string, string> := map[
    "127.0.0.10" := "L5 - Worst possible reputation",
    "127.0.0.11" := "L4 - Very bad reputation",
    "127.0.0.12" := "L3 - Bad reputation",
    "127.0.0.13" := "L2 - Suspicious behavior reputation",
    "127.0.0.14" := "L1 - Neutral - Probably spam",
    "127.0.0.15" := "LHO - Neutral",
    "127.0.0.16" := "H1 - Neutral - Probably legit",
    "127.0.0.17" := "H2 - Possible legit sender",
    "127.0.0.18" := "H3 - Good Reputation",
    "127.0.0.19" := "H4 - Very Good Reputation",
    "127.0.0.20" := "H5 - Excellent Reputation"
  ]

  /** `check`: every answer lists the target, named by the table when it has the address. */
  function Check(rec: Record): (r: Checked)
    ensures r.Raised? <==> rec.LookupError?
    ensures r.Raised? ==> r.msg == rec.msg
    ensures Absent(rec) ==> r == Returned(false, "Not listed")
    ensures r.Returned? ==> (r.listed <==> !Absent(rec))
    ensures r.Returned? && r.listed ==>
      r.details == Tagged(if rec.ip in ReturnCodes then ReturnCodes[rec.ip] else "Listed", rec.ip)
  {
    TableCheck(ReturnCodes, rec)
  }

  /** Even the best reputation, H5, is reported as a listing. */
  lemma ExcellentReputationListed()
    ensures Check(Answer("127.0.0.20")) == Returned(true, Tagged("H5 - Excellent Reputation", "127.0.0.20"))
  {
    assert ReturnCodes["127.0.0.20"] == "H5 - Excellent Reputation";
  }

  /** 127.0.0.2 is not a reputation level: a plain listing. */
  lemma UnknownCodeListing()
    ensures Check(Answer("127.0.0.2")) == Returned(true, "Listed (Return IP: 127.0.0.2)")
  {
    assert "127.0.0.2" !in ReturnCodes;
    assert Tagged("Listed", "127.0.0.2") == "Listed (Return IP: 127.0.0.2)";
  }

  /** The texts of the L levels and LHO hold no colon. */
  lemma LowLevelsLackColon()
    ensures ':' !in ReturnCodes["127.0.0.10"]
    ensures ':' !in ReturnCodes["127.0.0.11"]
    ensures ':' !in ReturnCodes["127.0.0.12"]
    ensures ':' !in ReturnCodes["127.0.0.13"]
    ensures ':' !in ReturnCodes["127.0.0.14"]
    ensures ':' !in ReturnCodes["127.0.0.15"]
  {
    assert ReturnCodes["127.0.0.10"] == "L5 - Worst possible reputation";
    assert ReturnCodes["127.0.0.11"] == "L4 - Very bad reputation";
    assert ReturnCodes["127.0.0.12"] == "L3 - Bad reputation";
    assert ReturnCodes["127.0.0.13"] == "L2 - Suspicious behavior reputation";
    assert ReturnCodes["127.0.0.14"] == "L1 - Neutral - Probably spam";
    assert ReturnCodes["127.0.0.15"] == "LHO - Neutral";
  }

  /** The texts of the H levels hold no colon. */
  lemma HighLevelsLackColon()
    ensures ':' !in ReturnCodes["127.0.0.16"]
    ensures ':' !in ReturnCodes["127.0.0.17"]
    ensures ':' !in ReturnCodes["127.0.0.18"]
    ensures ':' !in ReturnCodes["127.0.0.19"]
    ensures ':' !in ReturnCodes["127.0.0.20"]
  {
    assert ReturnCodes["127.0.0.16"] == "H1 - Neutral - Probably legit";
    assert ReturnCodes["127.0.0.17"] == "H2 - Possible legit sender";
    assert ReturnCodes["127.0.0.18"] == "H3 - Good Reputation";
    assert ReturnCodes["127.0.0.19"] == "H4 - Very Good Reputation";
    assert ReturnCodes["127.0.0.20"] == "H5 - Excellent Reputation";
  }

  /** No reputation text holds a colon. */
  lemma DescriptionsLackColon()
    ensures forall k | k in ReturnCodes :: ':' !in ReturnCodes[k]
  {
    LowLevelsLackColon();
    HighLevelsLackColon();
  }

  /** A listing's return address is the one `create_result` reads back. */
  lemma CheckRoundTrip(ip: string)
    requires ip != "" && ':' !in ip && ip[|ip| - 1] != ')'
    ensures Check(Answer(ip)).Returned? && Check(Answer(ip)).listed
    ensures ExtractReturnIp(Check(Answer(ip)).details) == Some(ip)
  {
    DescriptionsLackColon();
    ListedRoundTrip(ReturnCodes, map[], ip);
  }
}
