/**
 * handlers/spamrats.py: the SpamRATS handler. Known return addresses name
 * the RATS list, unknown ones are listed under a separate text, and every
 * error becomes a result instead of escaping.
 */
module SpamRATS {
  import opened Models
  import opened DnsblBase

  const ReturnCodes: map<string, string> := map[
    "127.0.0.36" := "RATS-Dyna",
    "127.0.0.37" := "RATS-NoPtr",
    "127.0.0.38" := "RATS-Spam",
    "127.0.0.43" := "RATS-Auth"
  ]

  /** `check`, its try/except included. */
  function Check(rec: Record): (r: Checked)
    ensures r.Returned?
    ensures rec.LookupError? ==> r == Returned(false, ErrorPrefix + rec.msg)
    ensures Absent(rec) ==> r == Returned(false, "Not listed")
    ensures r.listed <==> rec.Answer? && rec.ip != ""
    ensures r.listed && rec.ip in ReturnCodes ==> r.details == Tagged("Listed in " + ReturnCodes[rec.ip], rec.ip)
    ensures r.listed && rec.ip !in ReturnCodes ==> r.details == UnknownCode(rec.ip)
  {
    match rec
    case LookupError(m) => Returned(false, ErrorPrefix + m)
    case NoRecord => Returned(false, "Not listed")
    case Answer(ip) =>
      if ip == "" then Returned(false, "Not listed")
      else if ip in ReturnCodes then Returned(true, Tagged("Listed in " + ReturnCodes[ip], ip))
      else Returned(true, UnknownCode(ip))
  }

  /** 127.0.0.38 is the RATS-Spam list. */
  lemma SpamListing()
    ensures Check(Answer("127.0.0.38")) == Returned(true, Tagged("Listed in RATS-Spam", "127.0.0.38"))
  {
    assert ReturnCodes["127.0.0.38"] == "RATS-Spam";
    assert "Listed in " + "RATS-Spam" == "Listed in RATS-Spam";
  }

  /**
   * A table hit carries its return address back to `create_result`; an
   * unknown code carries none, neither for `create_result` nor for the display.
   */
  lemma CheckReturnIp(ip: string)
    requires ip != "" && ':' !in ip && ip[|ip| - 1] != ')'
    ensures ip in ReturnCodes ==> ExtractReturnIp(Check(Answer(ip)).details) == Some(ip)
    ensures ip !in ReturnCodes ==> ExtractReturnIp(Check(Answer(ip)).details) == None
    ensures ip !in ReturnCodes ==> !PyStr.Contains(Check(Answer(ip)).details, "Return IP:")
  {
    if ip in ReturnCodes {
      assert ':' !in "Listed in " + ReturnCodes[ip];
      TaggedRoundTrip("Listed in " + ReturnCodes[ip], ip);
    } else {
      UnknownCodeHasNoReturnIp(ip);
    }
  }
}
