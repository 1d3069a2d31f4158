/**
 * config/dnsbl_config.py: `DNSBL_SERVICES`, the registry of services in the
 * order of its dict literal, which is the order Python iterates it in.
 */
module Config {
  import opened Models

  const Registry: seq<(string, Service)> := [
    ("spamhaus", Service("spamhaus", "zen.spamhaus.org", "Spamhaus ZEN (includes SBL, XBL, and PBL)", "spam", true)),
    ("barracuda", Service("barracuda", "b.barracudacentral.org", "Barracuda Reputation Block List", "spam", true)),
    ("spamcop", Service("spamcop", "bl.spamcop.net", "SpamCop Blocking List", "spam", true)),
    ("dronebl", Service("dronebl", "dnsbl.dronebl.org", "DroneBL (Botnet Detection)", "botnet", true)),
    ("tor", Service("tor", "tor.dan.me.uk", "Tor Exit Node List", "anonymization", false)),
    ("blocklist_de", Service("blocklist_de", "bl.blocklist.de", "Blocklist.de (Scanner/Probe Detection)", "scanner", true)),
    ("cinsscore", Service("cinsscore", "cinsscore.com", "CINSscore (Bad IPs)", "badips", true)),
    ("swinog (dnsrbl)", Service("swinog (dnsrbl)", "dnsrbl.swinog.ch", "Realtime blacklist assembled by spamtraps", "spam", false)),
    ("swinog (spamrbl)", Service("swinog (spamrbl)", "spamrbl.swinog.ch", "IP-adresses from catched spammails", "spam", false)),
    ("swinog (uribl)", Service("swinog (uribl)", "uribl.swinog.ch", "Realtime blacklist built from spamtrap sources", "spam", false)),
    ("lashback", Service("lashback", "blacklist.lashback.com", "world's largest unsubscribe intelligence database", "spam", false)),
    ("spamrats", Service("spamrats", "all.spamrats.com", "Spamrats ALL", "badips", true)),
    ("mailspike", Service("mailspike", "bl.mailspike.net", "Mailspike Reputation Service", "reputation", true)),
    ("sem-backscatter", Service("sem-backscatter", "backscatter.spameatingmonkey.net", "SpamEatingMonkey Backscatter", "spam", false)),
    ("sem-black", Service("sem-black", "bl.spameatingmonkey.net", "SpamEatingMonkey Black", "spam", false)),
    ("psbl-surriel", Service("psbl-surriel", "psbl.surriel.com", "Passive Spam Block List", "spam", false)),
    ("hostkarma", Service("hostkarma", "hostkarma.junkemailfilter.com", "Hostkarma (Junk Email Filter)", "reputation", true))
  ]

  /** The categories the registry uses. */
  const Categories: set<string> := {"spam", "botnet", "anonymization", "scanner", "badips", "reputation"}

  lemma RegistrySize()
    ensures |Registry| == 17
  {
  }

  /** Every key is the name of the service filed under it. */
  lemma KeysAreNames()
    ensures forall i | 0 <= i < |Registry| :: Registry[i].0 == Registry[i].1.name
  {
  }

  /** No key is filed twice. */
  lemma KeysAreDistinct()
    ensures forall i, j | 0 <= i < j < |Registry| :: Registry[i].0 != Registry[j].0
  {
  }

  /** Every service's category is one of the six. */
  lemma CategoriesAreKnown()
    ensures forall i | 0 <= i < |Registry| :: Registry[i].1.category in Categories
  {
  }

  /** The service filed under `key` in `entries`, the first one if several. */
  function Find(entries: seq<(string, Service)>, key: string): (r: Option<Service>)
    ensures r.None? <==> forall i | 0 <= i < |entries| :: entries[i].0 != key
    ensures r.Some? ==> exists i | 0 <= i < |entries| :: entries[i] == (key, r.value)
  {
    if entries == [] then None
    else if entries[0].0 == key then Some(entries[0].1)
    else
      var r := Find(entries[1..], key);
      if r.Some? then
        var i :| 0 <= i < |entries[1..]| && entries[1..][i] == (key, r.value);
        assert entries[i + 1] == (key, r.value);
        r
      else r
  }

  /** `DNSBL_SERVICES.get(key)`, and `DNSBL_SERVICES[key]` where the key is filed. */
  function Lookup(key: string): (r: Option<Service>)
    ensures r.None? <==> forall i | 0 <= i < |Registry| :: Registry[i].0 != key
    ensures r.Some? ==> r.value.name == key && r.value.category in Categories
  {
    KeysAreNames();
    CategoriesAreKnown();
    Find(Registry, key)
  }

  /** The service at a registry position is the one `Lookup` finds under its key. */
  lemma LookupAt(i: nat)
    requires i < |Registry|
    ensures Lookup(Registry[i].0) == Some(Registry[i].1)
  {
    KeysAreDistinct();
    var r := Lookup(Registry[i].0);
    var j :| 0 <= j < |Registry| && Registry[j] == (Registry[i].0, r.value);
    assert j == i;
  }

  /** The position of the entry filed under `key`, or the registry's length when there is none. */
  function KeyIndex(key: string): (n: nat)
    ensures n <= |Registry|
    ensures n < |Registry| ==> Registry[n].0 == key
    ensures n == |Registry| ==> Lookup(key).None?
  {
    FindIndex(Registry, key)
  }

  function FindIndex(entries: seq<(string, Service)>, key: string): (n: nat)
    ensures n <= |entries|
    ensures n < |entries| ==> entries[n].0 == key
    ensures n == |entries| ==> forall i | 0 <= i < |entries| :: entries[i].0 != key
  {
    if entries == [] then 0
    else if entries[0].0 == key then 0
    else 1 + FindIndex(entries[1..], key)
  }

  /** Each key's position is where it is filed. */
  lemma KeyIndexAt(i: nat)
    requires i < |Registry|
    ensures KeyIndex(Registry[i].0) == i
  {
    KeysAreDistinct();
  }
}
