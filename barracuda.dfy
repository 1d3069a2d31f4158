/**
 * handlers/barracuda.py: the Barracuda reputation handler, one known return
 * address, errors propagating.
 */
module Barracuda {
  import opened Models
  import opened DnsblBase

  const ReturnCodes: map<string, string> := map[
    "127.0.0.2" := "General spam source"
  ]

  /** `check`: every answer lists the target, named by the table when it has the address. */
  function Check(rec: Record): (r: Checked)
    ensures r.Raised? <==> rec.LookupError?
    ensures r.Raised? ==> r.msg == rec.msg
    ensures Absent(rec) ==> r == Returned(false, "Not listed")
    ensures r.Returned? ==> (r.listed <==> !Absent(rec))
    ensures r.Returned? && r.listed ==>
      r.details == Tagged(if rec.ip in ReturnCodes then ReturnCodes[rec.ip] else "Listed", rec.ip)
  {
    TableCheck(ReturnCodes, rec)
  }

  /** 127.0.0.2 is the one address the table names. */
  lemma GeneralSpamListing()
    ensures Check(Answer("127.0.0.2")) == Returned(true, "General spam source (Return IP: 127.0.0.2)")
  {
    assert ReturnCodes["127.0.0.2"] == "General spam source";
    assert Tagged("General spam source", "127.0.0.2") == "General spam source (Return IP: 127.0.0.2)";
  }

  /** Any other address is a plain listing. */
  lemma OtherAddressListing()
    ensures Check(Answer("127.0.0.3")) == Returned(true, "Listed (Return IP: 127.0.0.3)")
  {
    assert "127.0.0.3" !in ReturnCodes;
    assert Tagged("Listed", "127.0.0.3") == "Listed (Return IP: 127.0.0.3)";
  }

  lemma DescriptionsLackColon()
    ensures forall k | k in ReturnCodes :: ':' !in ReturnCodes[k]
  {
  }

  /** A listing's return address is the one `create_result` reads back. */
  lemma CheckRoundTrip(ip: string)
    requires ip != "" && ':' !in ip && ip[|ip| - 1] != ')'
    ensures Check(Answer(ip)).Returned? && Check(Answer(ip)).listed
    ensures ExtractReturnIp(Check(Answer(ip)).details) == Some(ip)
  {
    DescriptionsLackColon();
    ListedRoundTrip(ReturnCodes, map[], ip);
  }
}
