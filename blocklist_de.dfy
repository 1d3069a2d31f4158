/**
 * handlers/blocklist_de.py: the Blocklist.de handler, a table of attack
 * kinds indexed by return address, errors propagating.
 */
module BlocklistDE {
  import opened Models
  import opened DnsblBase

  const ReturnCodes: map<string, string> := map[
    "127.0.0.2" := "amavis",
    "127.0.0.3" := "apacheddos",
    "127.0.0.4" := "asterisk",
    "127.0.0.5" := "badbot",
    "127.0.0.6" := "ftp",
    "127.0.0.7" := "imap",
    "127.0.0.8" := "ircbot",
    "127.0.0.9" := "mail",
    "127.0.0.10" := "pop3",
    "127.0.0.11" := "regbot",
    "127.0.0.12" := "rfi-attack",
    "127.0.0.13" := "sasl",
    "127.0.0.14" := "ssh",
    "127.0.0.15" := "w00tw00t",
    "127.0.0.16" := "portflood",
    "127.0.0.17" := "sql-injection",
    "127.0.0.18" := "webmin",
    "127.0.0.19" := "trigger-spam",
    "127.0.0.20" := "manuall",
    "127.0.0.21" := "bruteforcelogin",
    "127.0.0.22" := "mysql"
  ]

  /** `check`: every answer lists the target, named by its attack kind when the table has it. */
  function Check(rec: Record): (r: Checked)
    ensures r.Raised? <==> rec.LookupError?
    ensures r.Raised? ==> r.msg == rec.msg
    ensures Absent(rec) ==> r == Returned(false, "Not listed")
    ensures r.Returned? ==> (r.listed <==> !Absent(rec))
    ensures r.Returned? && r.listed ==>
      r.details == Tagged(if rec.ip in ReturnCodes then ReturnCodes[rec.ip] else "Listed", rec.ip)
  {
    TableCheck(ReturnCodes, rec)
  }

  /** 127.0.0.14 is the ssh listing. */
  lemma SshListing()
    ensures Check(Answer("127.0.0.14")) == Returned(true, "ssh (Return IP: 127.0.0.14)")
  {
    assert ReturnCodes["127.0.0.14"] == "ssh";
    assert Tagged("ssh", "127.0.0.14") == "ssh (Return IP: 127.0.0.14)";
  }

  /** 127.0.0.23 is past the end of the table: a plain listing. */
  lemma UnknownCodeListing()
    ensures Check(Answer("127.0.0.23")) == Returned(true, "Listed (Return IP: 127.0.0.23)")
  {
    assert "127.0.0.23" !in ReturnCodes;
    assert Tagged("Listed", "127.0.0.23") == "Listed (Return IP: 127.0.0.23)";
  }

  lemma DescriptionsLackColon()
    ensures forall k | k in ReturnCodes :: ':' !in ReturnCodes[k]
  {
  }

  /** A listing's return address is the one `create_result` reads back. */
  lemma CheckRoundTrip(ip: string)
    requires ip != "" && ':' !in ip && ip[|ip| - 1] != ')'
    ensures Check(Answer(ip)).Returned? && Check(Answer(ip)).listed
    ensures ExtractReturnIp(Check(Answer(ip)).details) == Some(ip)
  {
    DescriptionsLackColon();
    ListedRoundTrip(ReturnCodes, map[], ip);
  }
}
