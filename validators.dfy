/**
 * utils/validators.py: the lenient IPv4 check built on Python's `int()`, the
 * domain-name regular expression, and `validate_target`.
 */
module Validators {
  import opened PyStr
  import opened Models

  // ---------------------------------------------------------------------
  // Python's int() on a string, base 10
  // ---------------------------------------------------------------------

  /** The value of the ASCII digits of `b`, read left to right; underscores are skipped. */
  function DecimalValue(b: string): nat {
    if b == [] then 0
    else if IsDigit(b[|b| - 1]) then DecimalValue(b[..|b| - 1]) * 10 + (b[|b| - 1] as int - '0' as int)
    else DecimalValue(b[..|b| - 1])
  }

  /** The value of a short digit string, spelled out. */
  lemma ShortDecimalValue(p: string)
    requires 1 <= |p| <= 3 && forall i :: 0 <= i < |p| ==> IsDigit(p[i])
    ensures DecimalValue(p) == if |p| == 1 then p[0] as int - '0' as int
                               else if |p| == 2 then 10 * (p[0] as int - '0' as int) + (p[1] as int - '0' as int)
                               else 100 * (p[0] as int - '0' as int) + 10 * (p[1] as int - '0' as int) + (p[2] as int - '0' as int)
  {
    if |p| >= 2 {
      assert p[..|p| - 1][..|p| - 2] == p[..|p| - 2];
      if |p| == 3 {
        assert p[..1][..0] == [];
      }
    }
    assert p[..1][..0] == [];
  }

  /** The digit part `int()` accepts: digits, with single underscores only between digits. */
  predicate IsDigitRun(b: string) {
    && |b| >= 1
    && IsDigit(b[0])
    && IsDigit(b[|b| - 1])
    && (forall i :: 0 <= i < |b| ==> IsDigit(b[i]) || b[i] == '_')
    && (forall i, j :: 0 <= i < j < |b| && b[i] == '_' && b[j] == '_' ==> j > i + 1)
  }

  /**
   * The most digits `int()` converts from a decimal string: CPython's default
   * `sys.get_int_max_str_digits()`. Leading zeros count, underscores do not.
   */
  const MaxStrDigits: nat := 4300

  /** How many ASCII digits `b` holds; underscores and other characters do not count. */
  function DigitCount(b: string): (n: nat)
    ensures n <= |b|
  {
    if b == [] then 0
    else DigitCount(b[..|b| - 1]) + (if IsDigit(b[|b| - 1]) then 1 else 0)
  }

  /** In a string of ASCII digits, every character counts. */
  lemma {:induction false} DigitCountOfDigits(p: string)
    requires forall i :: 0 <= i < |p| ==> IsDigit(p[i])
    ensures DigitCount(p) == |p|
  {
    if p != [] {
      DigitCountOfDigits(p[..|p| - 1]);
    }
  }

  /**
   * What `int()` reads once the whitespace is gone: one optional sign, then
   * a digit run of at most `MaxStrDigits` digits.
   */
  function SignedDecimal(t: string): Option<int> {
    if t == [] then None
    else
      var body := if t[0] == '-' || t[0] == '+' then t[1..] else t;
      if !IsDigitRun(body) || DigitCount(body) > MaxStrDigits then None
      else if t[0] == '-' then Some(0 - DecimalValue(body) as int)
      else Some(DecimalValue(body))
  }

  /**
   * `int(s)`: the whitespace `int()` skips is ignored on either side, one
   * sign is allowed, and anything else that is not a digit run, or a digit
   * run of more than `MaxStrDigits` digits, is a ValueError (None here).
   */
  function PyInt(s: string): Option<int> {
    SignedDecimal(IntStrip(s))
  }

  /** Surrounding whitespace aside, `int()` is the signed-decimal reading. */
  lemma PyIntOfUnpadded(s: string)
    requires s == [] || (!IsIntSpace(s[0]) && !IsIntSpace(s[|s| - 1]))
    ensures PyInt(s) == SignedDecimal(s)
  {
    StripUnpadded(s, IsIntSpace);
  }

  /** A non-empty string of ASCII digits is a digit run. */
  lemma DigitsAreRun(p: string)
    requires |p| >= 1 && forall i :: 0 <= i < |p| ==> IsDigit(p[i])
    ensures IsDigitRun(p)
  {
  }

  /**
   * A non-empty run of ASCII digits is read by `int()` as its decimal value,
   * unless it is longer than `MaxStrDigits`.
   */
  lemma PyIntOfDigits(p: string)
    requires |p| >= 1 && forall i :: 0 <= i < |p| ==> IsDigit(p[i])
    ensures PyInt(p) == if |p| <= MaxStrDigits then Some(DecimalValue(p)) else None
  {
    DigitCountOfDigits(p);
    assert PyInt(p) == SignedDecimal(p) by {
      DigitNotSpace(p[0]);
      DigitNotSpace(p[|p| - 1]);
      PyIntOfUnpadded(p);
    }
    assert IsDigitRun(p) by {
      DigitsAreRun(p);
    }
    assert p[0] != '-' && p[0] != '+';
  }

  lemma SignedDecimalOfSigned(sign: char, p: string)
    requires sign == '+' || sign == '-'
    requires IsDigitRun(p)
    ensures SignedDecimal([sign] + p) ==
      if DigitCount(p) <= MaxStrDigits then Some(if sign == '-' then -(DecimalValue(p) as int) else DecimalValue(p))
      else None
  {
    assert ([sign] + p)[1..] == p;
  }

  /** A sign in front of a string that ends in a digit leaves nothing for `int()` to skip. */
  lemma SignedIsUnpadded(sign: char, p: string)
    requires sign == '+' || sign == '-'
    requires |p| >= 1 && IsDigit(p[|p| - 1])
    ensures PyInt([sign] + p) == SignedDecimal([sign] + p)
  {
    var s := [sign] + p;
    assert s[0] == sign && s[|s| - 1] == p[|p| - 1];
    DigitNotSpace(p[|p| - 1]);
    PyIntOfUnpadded(s);
  }

  /**
   * A sign in front of a run of ASCII digits is applied to its value; the
   * sign does not count towards `MaxStrDigits`.
   */
  lemma PyIntOfSigned(sign: char, p: string)
    requires sign == '+' || sign == '-'
    requires |p| >= 1 && forall i :: 0 <= i < |p| ==> IsDigit(p[i])
    ensures PyInt([sign] + p) ==
      if |p| <= MaxStrDigits then Some(if sign == '-' then -(DecimalValue(p) as int) else DecimalValue(p))
      else None
  {
    SignedIsUnpadded(sign, p);
    DigitCountOfDigits(p);
    DigitsAreRun(p);
    SignedDecimalOfSigned(sign, p);
  }

  /** Whatever `int()` accepts holds at least one ASCII digit. */
  lemma PyIntNeedsDigit(s: string)
    requires PyInt(s).Some?
    ensures exists i :: 0 <= i < |s| && IsDigit(s[i])
  {
    var t := IntStrip(s);
    var l := StripLeft(s, IsIntSpace);
    var body := if t[0] == '-' || t[0] == '+' then t[1..] else t;
    var k := |t| - 1;
    assert IsDigit(t[k]);
    assert t[k] == l[k];
    assert l[k] == s[|s| - |l| + k];
  }

  // ---------------------------------------------------------------------
  // is_valid_ip
  // ---------------------------------------------------------------------

  /** One dot-separated part passes `0 <= int(part) <= 255` without raising. */
  predicate IsOctet(p: string) {
    PyInt(p).Some? && 0 <= PyInt(p).value <= 255
  }

  /**
   * `is_valid_ip`: exactly four dot-separated parts, each an integer in
   * 0..255. A part `int()` refuses makes the answer false, never an error.
   */
  predicate IsValidIp(s: string) {
    OctetPieces(Split(s, "."))
  }

  predicate OctetPieces(parts: seq<string>) {
    |parts| == 4 && IsOctet(parts[0]) && IsOctet(parts[1]) && IsOctet(parts[2]) && IsOctet(parts[3])
  }

  /** The dotted quad over four strings. */
  function Quad(a: string, b: string, c: string, d: string): string {
    Join([a, b, c, d], ".")
  }

  /** Splitting a dotted quad of dot-free parts gives back those four parts. */
  lemma SplitQuad(s: string, a: string, b: string, c: string, d: string)
    requires '.' !in a && '.' !in b && '.' !in c && '.' !in d
    requires s == Quad(a, b, c, d)
    ensures Split(s, ".") == [a, b, c, d]
  {
    SplitJoin([a, b, c, d], ".");
  }

  /** A dotted quad is an address exactly when each of its four parts is an octet. */
  lemma QuadValidity(s: string, a: string, b: string, c: string, d: string)
    requires '.' !in a && '.' !in b && '.' !in c && '.' !in d
    requires s == Quad(a, b, c, d)
    ensures IsValidIp(s) <==> IsOctet(a) && IsOctet(b) && IsOctet(c) && IsOctet(d)
  {
    SplitQuad(s, a, b, c, d);
  }

  /** One to three ASCII digits are an octet exactly when their value is at most 255. */
  lemma DigitsOctet(p: string)
    requires 1 <= |p| <= 3 && forall i :: 0 <= i < |p| ==> IsDigit(p[i])
    ensures IsOctet(p) <==> DecimalValue(p) <= 255
  {
    PyIntOfDigits(p);
  }

  /** A single ASCII digit is an octet. */
  lemma DigitOctet(c: char)
    requires IsDigit(c)
    ensures IsOctet([c])
  {
    ShortDecimalValue([c]);
    DigitsOctet([c]);
  }

  lemma SignedDigitValue(sign: char, c: char)
    requires (sign == '+' || sign == '-') && IsDigit(c)
    ensures var d := c as int - '0' as int;
      PyInt([sign, c]) == Some(if sign == '-' then -d else d)
  {
    SignedPairUnpadded(sign, c);
    SignedPairDecimal(sign, c);
  }

  lemma SignedPairUnpadded(sign: char, c: char)
    requires (sign == '+' || sign == '-') && IsDigit(c)
    ensures PyInt([sign, c]) == SignedDecimal([sign, c])
  {
    assert [sign, c] == [sign] + [c];
    SignedIsUnpadded(sign, [c]);
  }

  lemma SignedPairDecimal(sign: char, c: char)
    requires (sign == '+' || sign == '-') && IsDigit(c)
    ensures var d := c as int - '0' as int;
      SignedDecimal([sign, c]) == Some(if sign == '-' then -d else d)
  {
    assert [sign, c][1..] == [c];
    assert IsDigitRun([c]) && DigitCount([c]) == 1;
    ShortDecimalValue([c]);
  }

  /** A signed single ASCII digit is an octet unless it is a negative non-zero. */
  lemma SignedDigitOctet(sign: char, c: char)
    requires (sign == '+' || sign == '-') && IsDigit(c)
    ensures IsOctet([sign, c]) <==> sign == '+' || c == '0'
  {
    SignedDigitValue(sign, c);
  }

  /** A plain dotted quad is accepted. */
  lemma AcceptsPlainQuad()
    ensures IsValidIp(Quad("1", "2", "3", "4"))
  {
    assert '.' !in "1" && '.' !in "2" && '.' !in "3" && '.' !in "4";
    DigitOctet('1'); DigitOctet('2'); DigitOctet('3'); DigitOctet('4');
    QuadValidity(Quad("1", "2", "3", "4"), "1", "2", "3", "4");
  }

  lemma LeadingZerosOctet()
    ensures IsOctet("001")
  {
    ShortDecimalValue("001");
    DigitsOctet("001");
  }

  /** `int()` ignores leading zeros, so a part such as "001" is accepted. */
  lemma AcceptsLeadingZeros()
    ensures IsValidIp(Quad("001", "2", "3", "4"))
  {
    assert '.' !in "001" && '.' !in "2" && '.' !in "3" && '.' !in "4";
    LeadingZerosOctet();
    DigitOctet('2'); DigitOctet('3'); DigitOctet('4');
    QuadValidity(Quad("001", "2", "3", "4"), "001", "2", "3", "4");
  }

  lemma OctetAbove255()
    ensures !IsOctet("256")
  {
    ShortDecimalValue("256");
    DigitsOctet("256");
  }

  /** A part above 255 is rejected. */
  lemma RejectsOctetAbove255()
    ensures !IsValidIp(Quad("1", "2", "3", "256"))
  {
    assert '.' !in "1" && '.' !in "2" && '.' !in "3" && '.' !in "256";
    OctetAbove255();
    QuadValidity(Quad("1", "2", "3", "256"), "1", "2", "3", "256");
  }

  lemma NonNumericParts()
    ensures !IsOctet("a") && !IsOctet("")
  {
    LetterPart();
    EmptyPart();
  }

  lemma LetterPart()
    ensures PyInt("a") == None
  {
    assert IntStrip("a") == "a" by {
      assert !IsIntSpace('a');
      StripUnpadded("a", IsIntSpace);
    }
    UnsignedNonDigit("a");
  }

  lemma EmptyPart()
    ensures PyInt("") == None
  {
    PyIntOfUnpadded("");
  }

  /** A part `int()` refuses is a rejection, not an error. */
  lemma RejectsNonNumericOctet()
    ensures !IsValidIp(Quad("1", "2", "3", "a"))
    ensures !IsValidIp(Quad("1", "2", "3", ""))
  {
    assert '.' !in "1" && '.' !in "2" && '.' !in "3" && '.' !in "a" && '.' !in "";
    NonNumericParts();
    QuadValidity(Quad("1", "2", "3", "a"), "1", "2", "3", "a");
    QuadValidity(Quad("1", "2", "3", ""), "1", "2", "3", "");
  }

  /** A part of more than `MaxStrDigits` digits makes `int()` raise, so the address is rejected. */
  lemma RejectsOverlongOctet(p: string)
    requires |p| > MaxStrDigits && forall i :: 0 <= i < |p| ==> IsDigit(p[i])
    ensures !IsValidIp(Quad(p, "2", "3", "4"))
  {
    assert '.' !in p by {
      assert forall i :: 0 <= i < |p| ==> p[i] != '.';
    }
    assert '.' !in "2" && '.' !in "3" && '.' !in "4";
    PyIntOfDigits(p);
    QuadValidity(Quad(p, "2", "3", "4"), p, "2", "3", "4");
  }

  /** The separators U+001C to U+001F: whitespace to `strip()`, but not to `int()`. */
  predicate IsSeparator(c: char) {
    0x1c <= c as int <= 0x1f
  }

  /** `strip()` drops a leading separator. */
  lemma StripDropsSeparator(c: char, s: string)
    requires IsSeparator(c)
    requires s == [] || (!IsSpace(s[0]) && !IsSpace(s[|s| - 1]))
    ensures Strip([c] + s) == s
  {
    assert IsSpace(c);
    StripLeftSkips(c, s, IsSpace);
    StripUnpadded(s, IsSpace);
  }

  /** `int()` does not skip a leading separator, so it refuses the string. */
  lemma IntKeepsSeparator(c: char, s: string)
    requires IsSeparator(c)
    ensures PyInt([c] + s) == None
  {
    var t := [c] + s;
    assert t[0] == c && !IsIntSpace(c);
    StripLeftKeeps(t, IsIntSpace);
    StripRightDropsSpace(t, IsIntSpace);
    var r := IntStrip(t);
    assert 0 < |r| && r[0] == c;
    UnsignedNonDigit(r);
  }

  /** A string that starts with neither a sign nor a digit is not a signed decimal. */
  lemma UnsignedNonDigit(t: string)
    requires t != [] && t[0] != '-' && t[0] != '+' && !IsDigit(t[0])
    ensures SignedDecimal(t) == None
  {
  }

  /** "\x1c1.2.3.4" is not an address, although `strip()` would clean its first part. */
  lemma RejectsSeparatorPaddedOctet()
    ensures !IsValidIp(Quad(['\U{1c}', '1'], "2", "3", "4"))
  {
    assert ['\U{1c}', '1'] == ['\U{1c}'] + "1";
    assert '.' !in ['\U{1c}', '1'] && '.' !in "2" && '.' !in "3" && '.' !in "4";
    IntKeepsSeparator('\U{1c}', "1");
    QuadValidity(Quad(['\U{1c}', '1'], "2", "3", "4"), ['\U{1c}', '1'], "2", "3", "4");
  }

  /** `int()` is lenient: a sign on a part is accepted, but a negative value is not an octet. */
  lemma SignedParts()
    ensures IsValidIp(Quad("+1", "2", "3", "-0"))
    ensures !IsValidIp(Quad("1", "2", "3", "-4"))
  {
    assert '.' !in "+1" && '.' !in "2" && '.' !in "3" && '.' !in "-0" && '.' !in "1" && '.' !in "-4";
    SignedDigitOctet('+', '1'); SignedDigitOctet('-', '0'); SignedDigitOctet('-', '4');
    DigitOctet('1'); DigitOctet('2'); DigitOctet('3');
    QuadValidity(Quad("+1", "2", "3", "-0"), "+1", "2", "3", "-0");
    QuadValidity(Quad("1", "2", "3", "-4"), "1", "2", "3", "-4");
  }

  /** Blanks around an unpadded part change nothing for `int()`. */
  lemma PyIntIgnoresBlanks(p: string)
    requires p == [] || (!IsIntSpace(p[0]) && !IsIntSpace(p[|p| - 1]))
    ensures PyInt([' '] + p) == PyInt(p) && PyInt(p + [' ']) == PyInt(p)
  {
    assert IsIntSpace(' ');
    StripLeadingBlank(p, IsIntSpace);
    StripTrailingBlank(p, IsIntSpace);
    StripUnpadded(p, IsIntSpace);
  }

  lemma PaddedDigitValue(c: char)
    requires IsDigit(c)
    ensures PyInt([' ', c]) == PyInt([c]) && PyInt([c, ' ']) == PyInt([c])
  {
    assert [' '] + [c] == [' ', c] && [c] + [' '] == [c, ' '];
    DigitNotSpace(c);
    PyIntIgnoresBlanks([c]);
  }

  /** A digit with a blank before or after it is an octet. */
  lemma PaddedDigitOctet(c: char)
    requires IsDigit(c)
    ensures IsOctet([' ', c]) && IsOctet([c, ' '])
  {
    DigitOctet(c);
    PaddedDigitValue(c);
  }

  /** `int()` is lenient: blanks around a part are accepted. */
  lemma AcceptsPaddedParts()
    ensures IsValidIp(Quad(" 1", "2", "3", "4 "))
  {
    assert '.' !in " 1" && '.' !in "2" && '.' !in "3" && '.' !in "4 ";
    PaddedDigitOctet('1'); PaddedDigitOctet('4');
    DigitOctet('2'); DigitOctet('3');
    QuadValidity(Quad(" 1", "2", "3", "4 "), " 1", "2", "3", "4 ");
  }

  /**
   * A string with four dot-separated parts (every accepted address has
   * them) is the dotted quad of those parts; with QuadValidity this
   * characterises `is_valid_ip` completely.
   */
  lemma FourPartsAreQuad(s: string)
    requires |Split(s, ".")| == 4
    ensures var p := Split(s, ".");
      && s == Quad(p[0], p[1], p[2], p[3])
      && '.' !in p[0] && '.' !in p[1] && '.' !in p[2] && '.' !in p[3]
  {
    var p := Split(s, ".");
    JoinSplit(s, ".");
    assert p == [p[0], p[1], p[2], p[3]];
    SplitPiecesFree(s, ".");
    forall k | 0 <= k < 4 ensures '.' !in p[k] {
      assert p[k] in p;
      forall j | 0 <= j < |p[k]| ensures p[k][j] != '.' {
        assert !OccursAt(p[k], ".", j);
        assert p[k][j..j + 1] == [p[k][j]];
      }
    }
  }

  /** Whatever `int()` accepts as an octet holds an ASCII digit. */
  lemma OctetHasDigit(p: string)
    requires IsOctet(p)
    ensures exists i :: 0 <= i < |p| && IsDigit(p[i])
  {
    PyIntNeedsDigit(p);
  }

  // ---------------------------------------------------------------------
  // is_valid_domain: ^([a-zA-Z0-9][a-zA-Z0-9-]{0,61}[a-zA-Z0-9]\.)+[a-zA-Z]{2,}$
  // ---------------------------------------------------------------------

  /** One `[a-zA-Z0-9][a-zA-Z0-9-]{0,61}[a-zA-Z0-9]` label: 2 to 63 characters. */
  predicate IsLabel(l: string) {
    && 2 <= |l| <= 63
    && IsAlnum(l[0])
    && IsAlnum(l[|l| - 1])
    && forall i :: 0 < i < |l| - 1 ==> IsAlnum(l[i]) || l[i] == '-'
  }

  /** The final `[a-zA-Z]{2,}` part. */
  predicate IsTld(t: string) {
    |t| >= 2 && forall i :: 0 <= i < |t| ==> IsLetter(t[i])
  }

  /**
   * The whole pattern. No character class admits '.', so the dots of a match
   * are exactly its label separators: one or more labels, then the final part.
   */
  predicate MatchesDomainPattern(w: string) {
    DomainPieces(Split(w, "."))
  }

  /** The pieces between the dots of a match: one or more labels, then the final part. */
  predicate DomainPieces(parts: seq<string>) {
    && |parts| >= 2
    && (forall i :: 0 <= i < |parts| - 1 ==> IsLabel(parts[i]))
    && IsTld(parts[|parts| - 1])
  }

  /**
   * `is_valid_domain`: the empty string is refused first; then `re.match`
   * anchors at the start and `$` matches at the end or just before a final
   * newline.
   */
  predicate IsValidDomain(s: string) {
    && s != ""
    && (|| MatchesDomainPattern(s)
        || (s[|s| - 1] == '\n' && MatchesDomainPattern(s[..|s| - 1])))
  }

  /** The last piece of a join is the suffix of the joined string. */
  lemma {:induction false} JoinEndsWithLast(parts: seq<string>, sep: string)
    requires |parts| >= 1
    ensures var j := Join(parts, sep); |parts[|parts| - 1]| <= |j| && j[|j| - |parts[|parts| - 1]|..] == parts[|parts| - 1]
  {
    if |parts| > 1 {
      JoinEndsWithLast(parts[1..], sep);
      assert parts[1..][|parts| - 2] == parts[|parts| - 1];
    }
  }

  /**
   * What a pattern match looks like: it contains a dot and ends in two
   * letters, so a string ending in a digit (a dotted quad) never matches.
   */
  lemma {:induction false} PatternShape(w: string)
    requires MatchesDomainPattern(w)
    ensures '.' in w
    ensures |w| >= 2 && IsLetter(w[|w| - 1]) && IsLetter(w[|w| - 2])
  {
    var parts := Split(w, ".");
    JoinSplit(w, ".");
    var rest := Join(parts[1..], ".");
    assert w == parts[0] + "." + rest;
    assert w[|parts[0]|] == '.';
    var last := parts[|parts| - 1];
    JoinEndsWithLast(parts, ".");
    assert w[|w| - |last|..] == last;
    assert w[|w| - 1] == last[|last| - 1];
    assert w[|w| - 2] == last[|last| - 2];
  }

  /** An accepted domain contains a dot and its last label is letters, up to the one tolerated newline. */
  lemma DomainShape(s: string)
    requires IsValidDomain(s)
    ensures '.' in s
    ensures IsLetter(s[|s| - 1]) || (s[|s| - 1] == '\n' && |s| >= 2 && IsLetter(s[|s| - 2]))
  {
    if MatchesDomainPattern(s) {
      PatternShape(s);
    } else {
      var w := s[..|s| - 1];
      PatternShape(w);
      var k :| 0 <= k < |w| && w[k] == '.';
      assert s[k] == '.';
    }
  }

  /** On dot-free pieces, the pattern is exactly: labels, then a final part of letters. */
  lemma PatternOfPieces(w: string, parts: seq<string>)
    requires |parts| >= 1 && forall p :: p in parts ==> '.' !in p
    requires w == Join(parts, ".")
    ensures MatchesDomainPattern(w) <==> DomainPieces(parts)
  {
    SplitJoin(parts, ".");
  }

  lemma ExampleLabels()
    ensures IsLabel("example") && IsLabel("mail") && IsTld("com")
  {
  }

  /** Ordinary names are accepted. */
  lemma AcceptsDomains()
    ensures IsValidDomain("example.com")
    ensures IsValidDomain("mail.example.com")
  {
    assert "example.com" == Join(["example", "com"], ".");
    assert "mail.example.com" == Join(["mail", "example", "com"], ".");
    ExampleLabels();
    PatternOfPieces("example.com", ["example", "com"]);
    PatternOfPieces("mail.example.com", ["mail", "example", "com"]);
  }

  /** `$` also matches before a final newline, so one trailing newline is tolerated. */
  lemma AcceptsTrailingNewline()
    ensures IsValidDomain("example.com\n")
  {
    assert "example.com\n"[..11] == "example.com" == Join(["example", "com"], ".");
    ExampleLabels();
    PatternOfPieces("example.com", ["example", "com"]);
  }

  /** A one-character label is too short for the pattern. */
  lemma RejectsShortLabel()
    ensures !IsValidDomain("a.com")
  {
    assert "a.com" == Join(["a", "com"], ".");
    assert "a.com"[4] != '\n';
    PatternOfPieces("a.com", ["a", "com"]);
  }

  /** The empty string, a bare word, and a label starting with a hyphen are rejected. */
  lemma RejectsMalformedDomains()
    ensures !IsValidDomain("")
    ensures !IsValidDomain("com")
    ensures !IsValidDomain("-ab.com")
  {
    assert "com" == Join(["com"], ".");
    assert "-ab.com" == Join(["-ab", "com"], ".");
    assert "com"[2] != '\n' && "-ab.com"[6] != '\n';
    PatternOfPieces("com", ["com"]);
    PatternOfPieces("-ab.com", ["-ab", "com"]);
  }

  /** A dotted quad is not a domain: its last part is not letters. */
  lemma RejectsDottedQuadAsDomain()
    ensures !IsValidDomain("12.34.56.78")
  {
    assert !IsLetter("12.34.56.78"[10]);
    if MatchesDomainPattern("12.34.56.78") {
      PatternShape("12.34.56.78");
    }
  }

  // ---------------------------------------------------------------------
  // validate_target
  // ---------------------------------------------------------------------

  const InvalidTargetMessage := "Target must be a valid IP address or domain name"

  /** `validate_target`: `(True, "")` for an address or a domain, else the fixed message. */
  function ValidateTarget(target: string): (r: (bool, string))
    ensures r.0 <==> IsValidIp(target) || IsValidDomain(target)
    ensures r.1 == if r.0 then "" else InvalidTargetMessage
  {
    if IsValidIp(target) then (true, "")
    else if IsValidDomain(target) then (true, "")
    else (false, InvalidTargetMessage)
  }
}
