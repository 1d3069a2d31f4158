/**
 * handlers/cinsscore.py: the CINSscore handler, which checks the target
 * against a downloaded list of bad addresses kept in a cache file for a
 * day. The file is modelled by its fields, the clock by an integer number
 * of seconds, and the HTTP download by its outcome: the text fetched, or
 * nothing when the request or the save failed.
 */
module CinsScore {
  import opened PyStr
  import opened Models

  /** The cache file: whether it exists, its modification time, its text, and whether it can be read back. */
  datatype CacheFile = CacheFile(present: bool, mtime: int, contents: string, readable: bool)

  /** `timedelta(hours=24)`, in seconds. */
  const CacheDuration := 86400

  const DownloadError := "Error: Could not download CINSscore list"
  const ListedText := "Listed in CINSscore bad guys list"

  // ---------------------------------------------------------------------
  // The pure parts: _is_cache_valid and _load_cached_list
  // ---------------------------------------------------------------------

  /** `_is_cache_valid`: the file exists and is younger than a day. */
  predicate IsCacheValid(cache: CacheFile, now: int) {
    cache.present && now - cache.mtime < CacheDuration
  }

  /** Text-mode reading turns every carriage return into a line break. */
  function UniversalNewlines(s: string): string {
    seq(|s|, i requires 0 <= i < |s| => if s[i] == '\r' then '\n' else s[i])
  }

  /** The lines a text-mode file iterates over, their line breaks left out. */
  function Lines(text: string): seq<string> {
    Split(UniversalNewlines(text), "\n")
  }

  /** `set(line.strip() for line in f if line.strip())`. */
  function Entries(text: string): set<string> {
    set line | line in Lines(text) && Strip(line) != "" :: Strip(line)
  }

  /** `_load_cached_list`: the entries of a readable file, and the empty set when reading fails. */
  function LoadCachedList(cache: CacheFile): set<string> {
    if cache.present && cache.readable then Entries(cache.contents) else {}
  }

  /** The cache file `_download_list` leaves after saving the fetched text at time `now`. */
  function Written(text: string, now: int): CacheFile {
    CacheFile(true, now, text, true)
  }

  /** The cache after `check`: rewritten only when it was stale and the download succeeded. */
  function CacheAfter(cache: CacheFile, now: int, fetched: Option<string>): CacheFile {
    if IsCacheValid(cache, now) || fetched.None? then cache else Written(fetched.value, now)
  }

  /** What `check` returns, from the cache before the call, the clock and the download outcome. */
  function CheckSpec(cache: CacheFile, now: int, fetched: Option<string>, target: string): (bool, string) {
    if !IsCacheValid(cache, now) && fetched.None? then (false, DownloadError)
    else if target in LoadCachedList(CacheAfter(cache, now, fetched)) then (true, ListedText)
    else (false, "Not listed")
  }

  // ---------------------------------------------------------------------
  // The handler and its cache
  // ---------------------------------------------------------------------

  class CinsScoreHandler {
    var cache: CacheFile
    /** How many downloads have been attempted, to state when `check` downloads. */
    ghost var downloadAttempts: nat

    constructor (initial: CacheFile)
      ensures cache == initial && downloadAttempts == 0
    {
      cache := initial;
      downloadAttempts := 0;
    }

    /** `_download_list`: on success the fetched text replaces the cache file, stamped with the current time. */
    method DownloadList(now: int, fetched: Option<string>) returns (ok: bool)
      modifies this
      ensures ok <==> fetched.Some?
      ensures cache == if ok then Written(fetched.value, now) else old(cache)
      ensures downloadAttempts == old(downloadAttempts) + 1
    {
      downloadAttempts := downloadAttempts + 1;
      if fetched.None? {
        return false;
      }
      cache := Written(fetched.value, now);
      return true;
    }

    /** `check`: download when the cache is stale, then look the target up in the cached set. */
    method Check(target: string, now: int, fetched: Option<string>) returns (listed: bool, details: string)
      modifies this
      ensures (listed, details) == CheckSpec(old(cache), now, fetched, target)
      ensures cache == CacheAfter(old(cache), now, fetched)
      ensures downloadAttempts == old(downloadAttempts) + if IsCacheValid(old(cache), now) then 0 else 1
    {
      if !IsCacheValid(cache, now) {
        var ok := DownloadList(now, fetched);
        if !ok {
          return false, DownloadError;
        }
      }
      var badIps := LoadCachedList(cache);
      if target in badIps {
        return true, ListedText;
      }
      return false, "Not listed";
    }
  }

  // ---------------------------------------------------------------------
  // Properties
  // ---------------------------------------------------------------------

  /** A file is fresh up to one second short of a day, and a file exactly a day old is expired. */
  lemma ExpiryBoundary(cache: CacheFile)
    requires cache.present
    ensures IsCacheValid(cache, cache.mtime + CacheDuration - 1)
    ensures !IsCacheValid(cache, cache.mtime + CacheDuration)
    ensures forall now :: now >= cache.mtime + CacheDuration ==> !IsCacheValid(cache, now)
  {
  }

  /** A missing file is never valid, whatever its recorded time. */
  lemma MissingCacheIsStale(cache: CacheFile, now: int)
    requires !cache.present
    ensures !IsCacheValid(cache, now)
    ensures LoadCachedList(cache) == {}
  {
  }

  /** A fresh cache is used as it is: the download outcome is irrelevant and the file is not rewritten. */
  lemma FreshCacheIgnoresDownload(cache: CacheFile, now: int, fetched1: Option<string>, fetched2: Option<string>, target: string)
    requires IsCacheValid(cache, now)
    ensures CheckSpec(cache, now, fetched1, target) == CheckSpec(cache, now, fetched2, target)
    ensures CacheAfter(cache, now, fetched1) == cache
  {
  }

  /** A failed download of a stale cache gives the download error and leaves the file alone. */
  lemma FailedDownload(cache: CacheFile, now: int, target: string)
    requires !IsCacheValid(cache, now)
    ensures CheckSpec(cache, now, None, target) == (false, DownloadError)
    ensures CacheAfter(cache, now, None) == cache
  {
  }

  /**
   * A successful download of a stale cache decides by the fetched text alone,
   * and leaves a cache fresh enough that a check at the same moment does not
   * download again.
   */
  lemma SuccessfulDownload(cache: CacheFile, now: int, text: string, target: string)
    requires !IsCacheValid(cache, now)
    ensures CheckSpec(cache, now, Some(text), target).0 <==> target in Entries(text)
    ensures IsCacheValid(CacheAfter(cache, now, Some(text)), now)
  {
  }

  /** An unreadable cache holds no entries, so nothing is listed. */
  lemma UnreadableCacheListsNothing(cache: CacheFile, now: int, fetched: Option<string>, target: string)
    requires IsCacheValid(cache, now) && !cache.readable
    ensures CheckSpec(cache, now, fetched, target) == (false, "Not listed")
  {
  }

  /** A non-empty string with no whitespace at either end, as every entry is. */
  predicate Unpadded(s: string) {
    s != "" && !IsSpace(s[0]) && !IsSpace(s[|s| - 1])
  }

  /** Every entry of a loaded cache is non-empty and stripped. */
  lemma LoadedAreUnpadded(cache: CacheFile)
    ensures forall e | e in LoadCachedList(cache) :: Unpadded(e)
  {
  }

  /**
   * The target is compared as given: one with whitespace at either end, or
   * the empty string, is never listed.
   */
  lemma PaddedTargetNeverListed(cache: CacheFile, now: int, fetched: Option<string>, target: string)
    requires !Unpadded(target)
    ensures !CheckSpec(cache, now, fetched, target).0
  {
    LoadedAreUnpadded(CacheAfter(cache, now, fetched));
  }

  /** Text without carriage returns is read as written. */
  lemma UniversalNewlinesKeeps(s: string)
    requires '\r' !in s
    ensures UniversalNewlines(s) == s
  {
  }

  /** Lines that are already stripped give exactly the non-empty ones as entries. */
  lemma EntriesOfUnpaddedLines(text: string)
    requires forall l | l in Lines(text) :: l == "" || Unpadded(l)
    ensures Entries(text) == set l | l in Lines(text) && l != ""
  {
    forall l | l in Lines(text) && l != "" ensures Strip(l) == l {
      StripUnpadded(l, IsSpace);
    }
  }

  /** The lines of a list written one address per line, with and without a final line break. */
  lemma LinesOfWrittenList(addresses: seq<string>)
    requires |addresses| >= 1
    requires forall a | a in addresses :: '\n' !in a && '\r' !in a
    ensures Lines(Join(addresses, "\n")) == addresses
    ensures Lines(Join(addresses, "\n") + "\n") == addresses + [""]
  {
    var text := Join(addresses, "\n");
    forall a | a in addresses ensures Free(a, "\n") {
      FreeOfChar(a, '\n');
    }
    SplitJoin(addresses, "\n");
    JoinNoChar(addresses, '\r');
    UniversalNewlinesKeeps(text);
    UniversalNewlinesKeeps(text + "\n");
    SplitAppendPiece(text, '\n', "");
    assert text + "\n" == text + ['\n'] + "";
  }

  /**
   * A list written one address per line is read back as exactly the set of
   * its addresses, whether or not the text ends with a line break.
   */
  lemma EntriesOfWrittenList(addresses: seq<string>)
    requires |addresses| >= 1
    requires forall a | a in addresses :: Unpadded(a) && '\n' !in a && '\r' !in a
    ensures Entries(Join(addresses, "\n")) == set a | a in addresses
    ensures Entries(Join(addresses, "\n") + "\n") == set a | a in addresses
  {
    LinesOfWrittenList(addresses);
    EntriesOfUnpaddedLines(Join(addresses, "\n"));
    EntriesOfUnpaddedLines(Join(addresses, "\n") + "\n");
    assert (set l | l in addresses + [""] && l != "") == set a | a in addresses;
  }

  /** Joining pieces without a character, with a separator other than it, gives a text without it. */
  lemma {:induction false} JoinNoChar(parts: seq<string>, c: char)
    requires |parts| >= 1 && c != '\n'
    requires forall p | p in parts :: c !in p
    ensures c !in Join(parts, "\n")
    decreases |parts|
  {
    if |parts| > 1 {
      JoinNoChar(parts[1..], c);
      assert parts[0] in parts;
    } else {
      assert parts[0] in parts;
    }
  }
}
