/**
 * handlers/spamhaus.py: the Spamhaus ZEN handler. Its `check` tests the
 * one rate-limit answer literally instead of through its table, and is
 * shown to agree with the base `check` over both tables.
 */
module Spamhaus {
  import opened Models
  import opened DnsblBase

  const ReturnCodes: map<string, string> := map[
    "127.0.0.2" := "SBL (General spam source)",
    "127.0.0.3" := "PBL (Policy Block List)",
    "127.0.0.4" := "XBL (Compromised or infected machine)",
    "127.0.0.5" := "PBL (Policy Block List)",
    "127.0.0.6" := "SBL and XBL",
    "127.0.0.7" := "SBL, XBL, and PBL",
    "127.0.0.9" := "SBL and PBL",
    "127.0.0.10" := "XBL (Other exploit activities)"
  ]

  const RateLimitAddress := "127.255.255.254"

  const RateLimitCodes: map<string, string> := map[RateLimitAddress := "Query blocked or rate-limited"]

  /** `check`: the base behaviour, the rate-limit answer recognised by its address. */
  function Check(rec: Record): (r: Checked)
    ensures r == DnsblBase.Check(ReturnCodes, RateLimitCodes, rec)
  {
    match rec
    case LookupError(m) => Raised(m)
    case NoRecord => Returned(false, "Not listed")
    case Answer(ip) =>
      if ip == "" then Returned(false, "Not listed")
      else if ip == RateLimitAddress then Returned(false, "Query blocked or rate-limited")
      else if ip in ReturnCodes then Returned(true, Tagged(ReturnCodes[ip], ip))
      else Returned(true, Tagged("Listed", ip))
  }

  /** Every answer but the rate-limit one lists the target; a lookup error escapes. */
  lemma CheckListsEveryOtherAnswer(rec: Record)
    ensures Check(rec).Raised? <==> rec.LookupError?
    ensures Check(rec).Returned? ==> (Check(rec).listed <==> !Absent(rec) && rec.ip != RateLimitAddress)
  {
  }

  /** The rate-limit answer is reported, not listed. */
  lemma RateLimited()
    ensures Check(Answer(RateLimitAddress)) == Returned(false, "Query blocked or rate-limited")
  {
  }

  /** 127.0.0.2 is the SBL listing. */
  lemma SblListing()
    ensures Check(Answer("127.0.0.2")) == Returned(true, "SBL (General spam source) (Return IP: 127.0.0.2)")
  {
    assert "127.0.0.2" != RateLimitAddress;
    assert ReturnCodes["127.0.0.2"] == "SBL (General spam source)";
    assert Tagged("SBL (General spam source)", "127.0.0.2") == "SBL (General spam source) (Return IP: 127.0.0.2)";
  }

  /** 127.0.0.8 is in no table: a plain listing. */
  lemma UnknownCodeListing()
    ensures Check(Answer("127.0.0.8")) == Returned(true, "Listed (Return IP: 127.0.0.8)")
  {
    assert "127.0.0.8" != RateLimitAddress;
    assert "127.0.0.8" !in ReturnCodes;
    assert Tagged("Listed", "127.0.0.8") == "Listed (Return IP: 127.0.0.8)";
  }

  lemma DescriptionsLackColon()
    ensures forall k | k in ReturnCodes :: ':' !in ReturnCodes[k]
  {
  }

  /** A listing's return address is the one `create_result` reads back. */
  lemma CheckRoundTrip(ip: string)
    requires ip != "" && ip != RateLimitAddress && ':' !in ip && ip[|ip| - 1] != ')'
    ensures Check(Answer(ip)).Returned? && Check(Answer(ip)).listed
    ensures ExtractReturnIp(Check(Answer(ip)).details) == Some(ip)
  {
    DescriptionsLackColon();
    ListedRoundTrip(ReturnCodes, RateLimitCodes, ip);
  }
}
