/**
 * The handful of Python `str` operations the checker relies on: substring
 * search (`in`, `find`), `split`/`join`, `strip`/`rstrip` and `capitalize`,
 * written out over `seq<char>` so that the modules built on them can state
 * exactly what each call returns.
 */
module PyStr {

  // ---------------------------------------------------------------------
  // Substring search
  // ---------------------------------------------------------------------

  /** `sub` occurs in `s` starting at index `i`. */
  predicate OccursAt(s: string, sub: string, i: nat) {
    i + |sub| <= |s| && s[i..i + |sub|] == sub
  }

  /** The first occurrence of `sub` in `s` at or after `from`, as `str.find` scans. */
  function FindFrom(s: string, sub: string, from: nat): (r: int)
    ensures r == -1 || (from <= r && OccursAt(s, sub, r))
    ensures r == -1 ==> forall k: nat :: from <= k ==> !OccursAt(s, sub, k)
    ensures r != -1 ==> forall k: nat :: from <= k < r ==> !OccursAt(s, sub, k)
    decreases |s| - from
  {
    if from + |sub| > |s| then -1
    else if s[from..from + |sub|] == sub then from
    else FindFrom(s, sub, from + 1)
  }

  /** `s.find(sub)`: the index of the first occurrence, or -1. */
  function Find(s: string, sub: string): (r: int)
    ensures r == -1 || (0 <= r && OccursAt(s, sub, r))
    ensures r == -1 ==> forall k: nat :: !OccursAt(s, sub, k)
    ensures r != -1 ==> forall k: nat :: k < r ==> !OccursAt(s, sub, k)
  {
    FindFrom(s, sub, 0)
  }

  /** Python's `sub in s`. */
  predicate Contains(s: string, sub: string) {
    Find(s, sub) != -1
  }

  /** An occurrence at `i` with none before it is the one `Find` reports. */
  lemma FindIs(s: string, sub: string, i: nat)
    requires OccursAt(s, sub, i)
    requires forall k: nat :: k < i ==> !OccursAt(s, sub, k)
    ensures Find(s, sub) == i
  {
  }

  /** A string without the character `c` holds no occurrence of any pattern that contains `c`. */
  lemma NoOccurrenceWithout(s: string, sub: string, j: nat)
    requires j < |sub| && sub[j] !in s
    ensures Find(s, sub) == -1
  {
  }

  /**
   * No occurrence of `sub` when, wherever `s` has `sub[j]` at the right
   * distance, it lacks `sub[0]` where the occurrence would start.
   */
  lemma NoOccurrenceByAnchor(s: string, sub: string, j: nat)
    requires 0 < j < |sub|
    requires forall k :: 0 <= k && k + |sub| <= |s| ==> s[k + j] != sub[j] || s[k] != sub[0]
    ensures !Contains(s, sub)
  {
    forall k: nat ensures !OccursAt(s, sub, k) {
      if k + |sub| <= |s| {
        assert s[k..k + |sub|][j] == s[k + j];
        assert s[k..k + |sub|][0] == s[k];
      }
    }
  }

  // ---------------------------------------------------------------------
  // split and join
  // ---------------------------------------------------------------------

  /** `s.split(sep)` for a non-empty separator: the pieces between successive occurrences. */
  function Split(s: string, sep: string): (parts: seq<string>)
    requires sep != ""
    ensures |parts| >= 1
    decreases |s|
  {
    var i := Find(s, sep);
    if i == -1 then [s] else [s[..i]] + Split(s[i + |sep|..], sep)
  }

  /** `sep.join(parts)`. */
  function Join(parts: seq<string>, sep: string): string
    requires |parts| >= 1
  {
    if |parts| == 1 then parts[0] else parts[0] + sep + Join(parts[1..], sep)
  }

  /** `s` contains no occurrence of `sep`. */
  predicate Free(s: string, sep: string) {
    Find(s, sep) == -1
  }

  /** Joining the pieces of a split gives back the original string. */
  lemma {:induction false} JoinSplit(s: string, sep: string)
    requires sep != ""
    ensures Join(Split(s, sep), sep) == s
    decreases |s|
  {
    var i := Find(s, sep);
    if i != -1 {
      var rest := s[i + |sep|..];
      JoinSplit(rest, sep);
      var parts := Split(s, sep);
      assert parts[0] == s[..i] && parts[1..] == Split(rest, sep);
      assert Join(parts, sep) == s[..i] + sep + Join(Split(rest, sep), sep);
      assert s[i..i + |sep|] == sep;
      ThreePieces(s, i, i + |sep|);
    }
  }

  lemma ThreePieces(s: string, i: nat, j: nat)
    requires i <= j <= |s|
    ensures s == s[..i] + s[i..j] + s[j..]
  {
  }

  /** For a one-character pattern, having no occurrence means not containing the character. */
  lemma FreeOfChar(s: string, c: char)
    ensures Free(s, [c]) <==> c !in s
  {
    if c in s {
      var j :| 0 <= j < |s| && s[j] == c;
      assert s[j..j + 1] == [c];
      assert OccursAt(s, [c], j);
    } else {
      NoOccurrenceWithout(s, [c], 0);
    }
  }

  /** No piece of a split on a character holds that character. */
  lemma SplitPiecesLackChar(s: string, c: char)
    ensures forall p :: p in Split(s, [c]) ==> c !in p
  {
    SplitPiecesFree(s, [c]);
    forall p | p in Split(s, [c]) ensures c !in p {
      FreeOfChar(p, c);
    }
  }

  /** No piece of a split contains the separator. */
  lemma {:induction false} SplitPiecesFree(s: string, sep: string)
    requires sep != ""
    ensures forall p :: p in Split(s, sep) ==> Free(p, sep)
    decreases |s|
  {
    var i := Find(s, sep);
    if i != -1 {
      var rest := s[i + |sep|..];
      SplitPiecesFree(rest, sep);
      var head := s[..i];
      forall k: nat | OccursAt(head, sep, k) ensures false {
        assert head[k..k + |sep|] == s[k..k + |sep|];
        assert OccursAt(s, sep, k);
      }
    }
  }

  /** With a one-character separator, splitting a join gives back the pieces. */
  lemma {:induction false} SplitJoin(parts: seq<string>, sep: string)
    requires |sep| == 1 && |parts| >= 1
    requires forall p :: p in parts ==> sep[0] !in p
    ensures Split(Join(parts, sep), sep) == parts
  {
    if |parts| == 1 {
      NoOccurrenceWithout(parts[0], sep, 0);
      assert parts == [parts[0]];
    } else {
      var head, tail := parts[0], Join(parts[1..], sep);
      var s := head + sep + tail;
      assert Join(parts, sep) == s;
      assert parts == [head] + parts[1..];
      assert s[|head|..|head| + 1] == sep;
      assert s[..|head|] == head && s[|head| + 1..] == tail;
      forall k: nat | k < |head| ensures !OccursAt(s, sep, k) {
        assert s[k] == head[k] && head[k] in parts[0];
      }
      FindIs(s, sep, |head|);
      SplitJoin(parts[1..], sep);
      assert Split(s, sep) == [head] + Split(tail, sep);
    }
  }

  /** An occurrence found in a prefix is still the first one after anything is appended. */
  lemma FindInPrefix(a: string, t: string, sub: string)
    requires Find(a, sub) != -1
    ensures Find(a + t, sub) == Find(a, sub)
  {
    var i := Find(a, sub);
    var s := a + t;
    assert s[i..i + |sub|] == a[i..i + |sub|];
    forall k: nat | k < i ensures !OccursAt(s, sub, k) {
      assert !OccursAt(a, sub, k);
      assert s[k..k + |sub|] == a[k..k + |sub|];
    }
    FindIs(s, sub, i);
  }

  /** When `a` lacks `c`, the first `c` of `a + [c] + t` is the one after `a`. */
  lemma FindAfterFree(a: string, c: char, t: string)
    requires Find(a, [c]) == -1
    ensures Find(a + [c] + t, [c]) == |a|
  {
    var s := a + [c] + t;
    assert s[|a|..|a| + 1] == [c];
    forall k: nat | k < |a| ensures !OccursAt(s, [c], k) {
      assert !OccursAt(a, [c], k);
      assert s[k..k + 1] == a[k..k + 1];
    }
    FindIs(s, [c], |a|);
  }

  /** Appending a separator and a piece free of it adds that piece to the split. */
  lemma {:induction false} SplitAppendPiece(a: string, c: char, b: string)
    requires c !in b
    ensures Split(a + [c] + b, [c]) == Split(a, [c]) + [b]
    decreases |a|
  {
    var s := a + [c] + b;
    var i := Find(a, [c]);
    if i == -1 {
      assert s[|a| + 1..] == b;
      assert s[..|a|] == a;
      FindAfterFree(a, c, b);
      NoOccurrenceWithout(b, [c], 0);
    } else {
      assert s == a + ([c] + b);
      assert s[i + 1..] == a[i + 1..] + [c] + b;
      assert s[..i] == a[..i];
      FindInPrefix(a, [c] + b, [c]);
      SplitAppendPiece(a[i + 1..], c, b);
    }
  }

  /** The total length of a sequence of strings. */
  function TotalLength(parts: seq<string>): nat {
    if parts == [] then 0 else |parts[0]| + TotalLength(parts[1..])
  }

  lemma {:induction false} TotalLengthAppend(a: seq<string>, b: seq<string>)
    ensures TotalLength(a + b) == TotalLength(a) + TotalLength(b)
  {
    if a == [] {
      assert a + b == b;
    } else {
      assert (a + b)[0] == a[0] && (a + b)[1..] == a[1..] + b;
      TotalLengthAppend(a[1..], b);
    }
  }

  /** A join is as long as its pieces plus one separator between each pair. */
  lemma {:induction false} JoinLength(parts: seq<string>, sep: string)
    requires |parts| >= 1
    ensures |Join(parts, sep)| == TotalLength(parts) + (|parts| - 1) * |sep|
  {
    if |parts| > 1 {
      JoinLength(parts[1..], sep);
    }
  }

  // ---------------------------------------------------------------------
  // Reversal of a sequence (Python's `reversed`)
  // ---------------------------------------------------------------------

  function Reversed<T>(xs: seq<T>): (r: seq<T>)
    ensures |r| == |xs|
    ensures forall k :: 0 <= k < |xs| ==> r[k] == xs[|xs| - 1 - k]
  {
    if xs == [] then [] else Reversed(xs[1..]) + [xs[0]]
  }

  lemma ReversedTwice<T>(xs: seq<T>)
    ensures Reversed(Reversed(xs)) == xs
  {
    var r := Reversed(Reversed(xs));
    assert |r| == |xs|;
    forall k | 0 <= k < |xs| ensures r[k] == xs[k] {
    }
  }

  lemma ReversedMembers<T>(xs: seq<T>, x: T)
    ensures x in Reversed(xs) <==> x in xs
  {
    var r := Reversed(xs);
    if x in xs {
      var k :| 0 <= k < |xs| && xs[k] == x;
      assert r[|xs| - 1 - k] == x;
    }
    if x in r {
      var k :| 0 <= k < |r| && r[k] == x;
      assert xs[|xs| - 1 - k] == x;
    }
  }

  lemma {:induction false} ReversedTotalLength(parts: seq<string>)
    ensures TotalLength(Reversed(parts)) == TotalLength(parts)
  {
    if parts != [] {
      ReversedTotalLength(parts[1..]);
      TotalLengthAppend(Reversed(parts[1..]), [parts[0]]);
      assert TotalLength([parts[0]]) == |parts[0]|;
    }
  }

  // ---------------------------------------------------------------------
  // strip / rstrip
  // ---------------------------------------------------------------------

  /** `c.isspace()`: the characters Python's `strip()` treats as whitespace. */
  predicate IsSpace(c: char) {
    var n := c as int;
    n == 0x20 || 0x09 <= n <= 0x0d || 0x1c <= n <= 0x1f || n == 0x85 || n == 0xa0 || n == 0x1680
    || 0x2000 <= n <= 0x200a || n == 0x2028 || n == 0x2029 || n == 0x202f || n == 0x205f || n == 0x3000
  }

  /**
   * The whitespace `int()` skips around a number. `int()` first turns every
   * non-ASCII whitespace character into a blank and keeps ASCII characters
   * as they are, then skips only ASCII blanks, tabs, and `\n`, `\v`, `\f`,
   * `\r`; the separators U+001C to U+001F, which `isspace()` accepts, are
   * not skipped.
   */
  predicate IsIntSpace(c: char) {
    IsSpace(c) && !(0x1c <= c as int <= 0x1f)
  }

  /** Drop the leading characters that satisfy `ws`. */
  function StripLeft(s: string, ws: char -> bool): (r: string)
    ensures |r| <= |s| && r == s[|s| - |r|..]
    ensures r == [] || !ws(r[0])
  {
    if s != [] && ws(s[0]) then StripLeft(s[1..], ws) else s
  }

  /** Drop the trailing characters that satisfy `ws`. */
  function StripRight(s: string, ws: char -> bool): (r: string)
    ensures |r| <= |s| && r == s[..|r|]
    ensures r == [] || !ws(r[|r| - 1])
  {
    if s != [] && ws(s[|s| - 1]) then StripRight(s[..|s| - 1], ws) else s
  }

  /** `s.strip()`: drop leading and trailing whitespace. */
  function Strip(s: string): (r: string)
    ensures r == [] || (!IsSpace(r[0]) && !IsSpace(r[|r| - 1]))
  {
    StripRight(StripLeft(s, IsSpace), IsSpace)
  }

  /** The whitespace `int()` ignores on either side of a number. */
  function IntStrip(s: string): (r: string)
    ensures r == [] || (!IsIntSpace(r[0]) && !IsIntSpace(r[|r| - 1]))
  {
    StripRight(StripLeft(s, IsIntSpace), IsIntSpace)
  }

  /** `StripLeft` removes leading whitespace and nothing else. */
  lemma {:induction false} StripLeftDropsSpace(s: string, ws: char -> bool)
    ensures forall k :: 0 <= k < |s| - |StripLeft(s, ws)| ==> ws(s[k])
  {
    if s != [] && ws(s[0]) {
      StripLeftDropsSpace(s[1..], ws);
      forall k | 1 <= k < |s| - |StripLeft(s, ws)| ensures ws(s[k]) {
        assert s[k] == s[1..][k - 1];
      }
    }
  }

  /** `StripRight` removes trailing whitespace and nothing else. */
  lemma {:induction false} StripRightDropsSpace(s: string, ws: char -> bool)
    ensures forall k :: |StripRight(s, ws)| <= k < |s| ==> ws(s[k])
  {
    if s != [] && ws(s[|s| - 1]) {
      StripRightDropsSpace(s[..|s| - 1], ws);
      forall k | |StripRight(s, ws)| <= k < |s| - 1 ensures ws(s[k]) {
        assert s[k] == s[..|s| - 1][k];
      }
    }
  }

  /** A leading whitespace character is dropped. */
  lemma StripLeftSkips(c: char, s: string, ws: char -> bool)
    requires ws(c)
    ensures StripLeft([c] + s, ws) == StripLeft(s, ws)
  {
    var t := [c] + s;
    assert t[0] == c && t[1..] == s;
  }

  /** A blank in front is whitespace to both `strip()` and `int()`. */
  lemma StripLeftSkipsBlank(s: string, ws: char -> bool)
    requires ws(' ')
    ensures StripLeft([' '] + s, ws) == StripLeft(s, ws)
  {
    StripLeftSkips(' ', s, ws);
  }

  lemma StripRightSkipsBlank(s: string, ws: char -> bool)
    requires ws(' ')
    ensures StripRight(s + [' '], ws) == StripRight(s, ws)
  {
    var t := s + [' '];
    assert t[|t| - 1] == ' ' && t[..|t| - 1] == s;
  }

  lemma StripLeftKeeps(s: string, ws: char -> bool)
    requires s == [] || !ws(s[0])
    ensures StripLeft(s, ws) == s
  {
  }

  lemma StripRightKeeps(s: string, ws: char -> bool)
    requires s == [] || !ws(s[|s| - 1])
    ensures StripRight(s, ws) == s
  {
  }

  /** One blank in front of an unpadded string is all stripping removes. */
  lemma StripLeadingBlank(s: string, ws: char -> bool)
    requires ws(' ')
    requires s == [] || (!ws(s[0]) && !ws(s[|s| - 1]))
    ensures StripRight(StripLeft([' '] + s, ws), ws) == s
  {
    StripLeftSkipsBlank(s, ws);
    StripLeftKeeps(s, ws);
    StripRightKeeps(s, ws);
  }

  /** One blank after an unpadded string is all stripping removes. */
  lemma StripTrailingBlank(s: string, ws: char -> bool)
    requires ws(' ')
    requires s == [] || (!ws(s[0]) && !ws(s[|s| - 1]))
    ensures StripRight(StripLeft(s + [' '], ws), ws) == s
  {
    var t := s + [' '];
    if s == [] {
      assert t == [' '] + [];
      StripLeftSkipsBlank([], ws);
      StripRightKeeps([], ws);
    } else {
      assert t[0] == s[0];
      StripLeftKeeps(t, ws);
      StripRightSkipsBlank(s, ws);
      StripRightKeeps(s, ws);
    }
  }

  lemma StripUnpadded(s: string, ws: char -> bool)
    requires s == [] || (!ws(s[0]) && !ws(s[|s| - 1]))
    ensures StripRight(StripLeft(s, ws), ws) == s
  {
  }

  /** Stripping introduces no character. */
  lemma StripKeepsOut(s: string, c: char, ws: char -> bool)
    requires c !in s
    ensures c !in StripRight(StripLeft(s, ws), ws)
  {
    var l := StripLeft(s, ws);
    assert c !in l by {
      assert l == s[|s| - |l|..];
    }
    var r := StripRight(l, ws);
    assert r == l[..|r|];
  }

  /** `s.rstrip(c)` for a single character `c`. */
  function RStripChar(s: string, c: char): (r: string)
    ensures |r| <= |s| && r == s[..|r|] && (r == [] || r[|r| - 1] != c)
    ensures forall k :: |r| <= k < |s| ==> s[k] == c
  {
    if s != [] && s[|s| - 1] == c then RStripChar(s[..|s| - 1], c) else s
  }

  /** `rstrip(c)` leaves a string alone when it does not end in `c`. */
  lemma RStripCharUnchanged(s: string, c: char)
    requires s == [] || s[|s| - 1] != c
    ensures RStripChar(s, c) == s
  {
  }

  /** A trailing `c` is one of the characters `rstrip(c)` removes. */
  lemma RStripCharAppended(s: string, c: char)
    ensures RStripChar(s + [c], c) == RStripChar(s, c)
  {
    assert (s + [c])[..|s + [c]| - 1] == s;
  }

  // ---------------------------------------------------------------------
  // ASCII character classes and capitalize
  // ---------------------------------------------------------------------

  predicate IsDigit(c: char) { '0' <= c <= '9' }

  lemma DigitNotSpace(c: char)
    requires IsDigit(c)
    ensures !IsSpace(c) && !IsIntSpace(c)
  {
  }
  predicate IsLetter(c: char) { 'a' <= c <= 'z' || 'A' <= c <= 'Z' }
  predicate IsAlnum(c: char) { IsDigit(c) || IsLetter(c) }

  function Upper(c: char): char {
    if 'a' <= c <= 'z' then (c as int - 32) as char else c
  }

  function Lower(c: char): char {
    if 'A' <= c <= 'Z' then (c as int + 32) as char else c
  }

  /** `s.capitalize()` on ASCII text: first letter upper case, the rest lower case. */
  function Capitalize(s: string): (r: string)
    ensures |r| == |s|
    ensures s != [] ==> r[0] == Upper(s[0])
    ensures forall k :: 0 < k < |s| ==> r[k] == Lower(s[k])
  {
    if s == [] then [] else [Upper(s[0])] + seq(|s| - 1, k requires 0 <= k < |s| - 1 => Lower(s[k + 1]))
  }

  /** A word starting with a lower-case letter and holding no upper-case one only has its first letter raised. */
  lemma CapitalizeLowerWord(s: string)
    requires s != [] && 'a' <= s[0] <= 'z'
    requires forall k :: 0 < k < |s| ==> !('A' <= s[k] <= 'Z')
    ensures Capitalize(s) == [(s[0] as int - 32) as char] + s[1..]
  {
  }

  // ---------------------------------------------------------------------
  // repr of a string
  // ---------------------------------------------------------------------

  /**
   * Whether `repr` shows `c` as it is. ASCII is exact. Beyond ASCII, the
   * Latin-1 controls, the no-break space, the soft hyphen and the other
   * Unicode spaces and line separators are escaped; every other character
   * is taken as printable.
   */
  predicate IsPrintable(c: char) {
    var n := c as int;
    if n < 0x80 then 0x20 <= n < 0x7f
    else n > 0xa0 && n != 0xad && !IsSpace(c)
  }

  predicate IsHexDigit(c: char) { IsDigit(c) || 'a' <= c <= 'f' }

  /** The lowest `width` lower-case hexadecimal digits of `n`, most significant first. */
  function HexDigits(n: nat, width: nat): (r: string)
    ensures |r| == width
    ensures forall i :: 0 <= i < |r| ==> IsHexDigit(r[i])
  {
    if width == 0 then []
    else
      var d := n % 16;
      HexDigits(n / 16, width - 1) + [if d < 10 then ('0' as int + d) as char else ('a' as int + d - 10) as char]
  }

  /** The quote `repr` puts around `s`: a double quote only when `s` holds a single quote and no double quote. */
  function ReprQuote(s: string): char {
    if '\'' in s && '"' !in s then '"' else '\''
  }

  /** How `repr` writes one character inside quotes `q`. */
  function ReprChar(c: char, q: char): string {
    var n := c as int;
    if c == q || c == '\\' then ['\\', c]
    else if c == '\t' then "\\t"
    else if c == '\n' then "\\n"
    else if c == '\r' then "\\r"
    else if IsPrintable(c) then [c]
    else if n <= 0xff then "\\x" + HexDigits(n, 2)
    else if n <= 0xffff then "\\u" + HexDigits(n, 4)
    else "\\U" + HexDigits(n, 8)
  }

  function ReprBody(s: string, q: char): string {
    if s == [] then [] else ReprChar(s[0], q) + ReprBody(s[1..], q)
  }

  /** `repr(s)` for a `str`: the quote, each character as `repr` writes it, the quote. */
  function Repr(s: string): (r: string)
    ensures |r| >= 2 && r[0] == ReprQuote(s) && r[|r| - 1] == ReprQuote(s)
  {
    var q := ReprQuote(s);
    [q] + ReprBody(s, q) + [q]
  }

  /** Every occurrence of the quote `q` in `b` comes right after a backslash. */
  predicate QuotesEscaped(b: string, q: char) {
    forall i | 0 <= i < |b| && b[i] == q :: 0 < i && b[i - 1] == '\\'
  }

  lemma ReprCharEscapesQuote(c: char, q: char)
    requires q == '\'' || q == '"'
    ensures QuotesEscaped(ReprChar(c, q), q)
  {
    var n := c as int;
    if !(c == q || c == '\\' || c == '\t' || c == '\n' || c == '\r' || IsPrintable(c)) {
      var w := if n <= 0xff then 2 else if n <= 0xffff then 4 else 8;
      var h := HexDigits(n, w);
      assert ReprChar(c, q) == ['\\', ReprChar(c, q)[1]] + h;
      assert forall i :: 0 <= i < |h| ==> h[i] != q;
    }
  }

  /** Inside the quotes, `repr` escapes every quote of the kind it chose, so the text cannot end early. */
  lemma {:induction false} ReprBodyEscapesQuotes(s: string, q: char)
    requires q == '\'' || q == '"'
    ensures QuotesEscaped(ReprBody(s, q), q)
  {
    if s != [] {
      var piece, rest := ReprChar(s[0], q), ReprBody(s[1..], q);
      ReprCharEscapesQuote(s[0], q);
      ReprBodyEscapesQuotes(s[1..], q);
      var b := piece + rest;
      forall i | 0 <= i < |b| && b[i] == q
        ensures 0 < i && b[i - 1] == '\\'
      {
        if i >= |piece| {
          assert rest[i - |piece|] == q;
        }
      }
    }
  }

  /** `repr(s)` is quoted at both ends with one quote kind, and that kind is escaped inside. */
  lemma ReprWellQuoted(s: string)
    ensures var r := Repr(s);
      && (r[0] == '"' <==> '\'' in s && '"' !in s)
      && QuotesEscaped(r[1..|r| - 1], r[0])
  {
    var q := ReprQuote(s);
    ReprBodyEscapesQuotes(s, q);
    assert Repr(s)[1..|Repr(s)| - 1] == ReprBody(s, q);
  }

  /** `repr` writes printable characters other than the quote and the backslash as they are. */
  lemma {:induction false} ReprBodyOfPlain(s: string, q: char)
    requires forall i :: 0 <= i < |s| ==> IsPrintable(s[i]) && s[i] != q && s[i] != '\\'
    ensures ReprBody(s, q) == s
  {
    if s != [] {
      ReprBodyOfPlain(s[1..], q);
      assert s == [s[0]] + s[1..];
    }
  }

  /** A string of printable characters without quotes or backslashes has `repr` `'s'`. */
  lemma ReprOfPlain(s: string)
    requires forall i :: 0 <= i < |s| ==> IsPrintable(s[i]) && s[i] != '\'' && s[i] != '"' && s[i] != '\\'
    ensures Repr(s) == "'" + s + "'"
  {
    assert '\'' !in s;
    ReprBodyOfPlain(s, '\'');
  }

  /** A single quote in the text makes `repr` use double quotes and leave it unescaped. */
  lemma ReprOfApostrophe(s: string)
    requires '\'' in s
    requires forall i :: 0 <= i < |s| ==> IsPrintable(s[i]) && s[i] != '"' && s[i] != '\\'
    ensures Repr(s) == "\"" + s + "\""
  {
    assert '"' !in s;
    ReprBodyOfPlain(s, '"');
  }
}
