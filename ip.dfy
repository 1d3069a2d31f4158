/**
 * utils/ip.py: the address predicate the checker actually uses (Python's
 * `ipaddress.ip_address`, restricted here to its IPv4 half), `reverse_ip`,
 * which builds the reversed-octet name of section 2.1 of RFC 5782, and the
 * `validate_target` that `main` calls.
 */
module IpUtils {
  import opened PyStr
  import Validators

  // ---------------------------------------------------------------------
  // is_valid_ip: ipaddress.ip_address on the IPv4 side
  // ---------------------------------------------------------------------

  /**
   * One part as `ipaddress` parses it: one to three ASCII digits, no
   * leading zero unless the part is "0", and a value of at most 255.
   */
  predicate IsStrictOctet(p: string) {
    && 1 <= |p| <= 3
    && (forall i :: 0 <= i < |p| ==> IsDigit(p[i]))
    && (p[0] == '0' ==> |p| == 1)
    && Validators.DecimalValue(p) <= 255
  }

  predicate StrictPieces(parts: seq<string>) {
    |parts| == 4 && IsStrictOctet(parts[0]) && IsStrictOctet(parts[1]) && IsStrictOctet(parts[2]) && IsStrictOctet(parts[3])
  }

  /** `is_valid_ip`: `ip_address` accepts the string as a dotted-decimal IPv4 address. */
  predicate IsValidIp(s: string) {
    StrictPieces(Split(s, "."))
  }

  /** A dotted quad of dot-free parts is an address exactly when each part is a strict octet. */
  lemma QuadValidity(s: string, a: string, b: string, c: string, d: string)
    requires '.' !in a && '.' !in b && '.' !in c && '.' !in d
    requires s == Validators.Quad(a, b, c, d)
    ensures IsValidIp(s) <==> IsStrictOctet(a) && IsStrictOctet(b) && IsStrictOctet(c) && IsStrictOctet(d)
  {
    Validators.SplitQuad(s, a, b, c, d);
  }

  /** Every strict octet is also accepted by the lenient `int()`-based check. */
  lemma StrictOctetIsOctet(p: string)
    requires IsStrictOctet(p)
    ensures Validators.IsOctet(p)
  {
    Validators.DigitsOctet(p);
  }

  lemma StrictPiecesAreOctets(parts: seq<string>)
    requires StrictPieces(parts)
    ensures Validators.OctetPieces(parts)
  {
    StrictOctetIsOctet(parts[0]);
    StrictOctetIsOctet(parts[1]);
    StrictOctetIsOctet(parts[2]);
    StrictOctetIsOctet(parts[3]);
  }

  /** The address check of utils/ip.py is stricter than the one of utils/validators.py. */
  lemma StrictIsLenient(s: string)
    requires IsValidIp(s)
    ensures Validators.IsValidIp(s)
  {
    StrictPiecesAreOctets(Split(s, "."));
  }

  lemma LeadingZeroParts()
    ensures !IsStrictOctet("01") && Validators.IsOctet("01")
  {
    Validators.ShortDecimalValue("01");
    Validators.DigitsOctet("01");
  }

  /** The two checks differ: a leading zero is refused by `ipaddress` but read by `int()`. */
  lemma LeadingZeroSeparatesChecks()
    ensures !IsValidIp(Validators.Quad("01", "2", "3", "4"))
    ensures Validators.IsValidIp(Validators.Quad("01", "2", "3", "4"))
  {
    assert '.' !in "01" && '.' !in "2" && '.' !in "3" && '.' !in "4";
    LeadingZeroParts();
    Validators.DigitOctet('2'); Validators.DigitOctet('3'); Validators.DigitOctet('4');
    QuadValidity(Validators.Quad("01", "2", "3", "4"), "01", "2", "3", "4");
    Validators.QuadValidity(Validators.Quad("01", "2", "3", "4"), "01", "2", "3", "4");
  }

  lemma SmallStrictOctets()
    ensures IsStrictOctet("1") && IsStrictOctet("2") && IsStrictOctet("3") && IsStrictOctet("4")
  {
    Validators.ShortDecimalValue("1");
    Validators.ShortDecimalValue("2");
    Validators.ShortDecimalValue("3");
    Validators.ShortDecimalValue("4");
  }

  /** A plain dotted quad is an address. */
  lemma AcceptsPlainQuad()
    ensures IsValidIp(Validators.Quad("1", "2", "3", "4"))
  {
    assert '.' !in "1" && '.' !in "2" && '.' !in "3" && '.' !in "4";
    SmallStrictOctets();
    QuadValidity(Validators.Quad("1", "2", "3", "4"), "1", "2", "3", "4");
  }

  /** The last character of an address is a digit. */
  lemma AddressEndsInDigit(s: string)
    requires IsValidIp(s)
    ensures |s| >= 1 && IsDigit(s[|s| - 1])
  {
    var parts := Split(s, ".");
    JoinSplit(s, ".");
    Validators.JoinEndsWithLast(parts, ".");
    var last := parts[3];
    assert |last| >= 1 && IsDigit(last[|last| - 1]);
    assert s[|s| - |last|..] == last;
    assert s[|s| - 1] == last[|last| - 1];
  }

  /** An address is never also a domain name, so the order of the two checks does not matter. */
  lemma AddressIsNotDomain(s: string)
    requires IsValidIp(s)
    ensures !Validators.IsValidDomain(s)
  {
    AddressEndsInDigit(s);
    if Validators.IsValidDomain(s) {
      Validators.DomainShape(s);
    }
  }

  // ---------------------------------------------------------------------
  // reverse_ip
  // ---------------------------------------------------------------------

  /** `reverse_ip`: the dot-separated components in reverse order, joined by dots. */
  function ReverseIp(s: string): string {
    Join(Reversed(Split(s, ".")), ".")
  }

  /** The components of the result are those of the input, reversed. */
  lemma ReverseIpComponents(s: string)
    ensures Split(ReverseIp(s), ".") == Reversed(Split(s, "."))
  {
    var parts := Split(s, ".");
    SplitPiecesLackChar(s, '.');
    forall p | p in Reversed(parts) ensures '.' !in p {
      ReversedMembers(parts, p);
    }
    SplitJoin(Reversed(parts), ".");
  }

  /** Reversing twice gives back the input, whatever the string. */
  lemma ReverseIpInvolution(s: string)
    ensures ReverseIp(ReverseIp(s)) == s
  {
    ReverseIpComponents(s);
    ReversedTwice(Split(s, "."));
    JoinSplit(s, ".");
  }

  /** Reversal keeps the length and the number of components. */
  lemma ReverseIpLength(s: string)
    ensures |ReverseIp(s)| == |s|
    ensures |Split(ReverseIp(s), ".")| == |Split(s, ".")|
  {
    var parts := Split(s, ".");
    ReverseIpComponents(s);
    JoinLength(parts, ".");
    JoinLength(Reversed(parts), ".");
    ReversedTotalLength(parts);
    JoinSplit(s, ".");
  }

  /** A string without a dot is its own reversal. */
  lemma ReverseIpNoDot(s: string)
    requires '.' !in s
    ensures ReverseIp(s) == s
  {
    NoOccurrenceWithout(s, ".", 0);
    assert Split(s, ".") == [s];
    assert Reversed([s]) == [s];
  }

  /** The reversal of a dotted quad is the quad read backwards. */
  lemma ReverseQuad(a: string, b: string, c: string, d: string)
    requires '.' !in a && '.' !in b && '.' !in c && '.' !in d
    ensures ReverseIp(Validators.Quad(a, b, c, d)) == Validators.Quad(d, c, b, a)
  {
    Validators.SplitQuad(Validators.Quad(a, b, c, d), a, b, c, d);
    assert Reversed([a, b, c, d]) == [d, c, b, a];
  }

  /** `reverse_ip("1.2.3.4") == "4.3.2.1"`. */
  lemma ReverseIpExample()
    ensures ReverseIp("1.2.3.4") == "4.3.2.1"
  {
    assert "1.2.3.4" == Validators.Quad("1", "2", "3", "4");
    assert "4.3.2.1" == Validators.Quad("4", "3", "2", "1");
    ReverseQuad("1", "2", "3", "4");
  }

  /** The reversal of an address is again an address. */
  lemma ReverseIpKeepsAddress(s: string)
    requires IsValidIp(s)
    ensures IsValidIp(ReverseIp(s))
  {
    ReverseIpComponents(s);
    var parts := Split(s, ".");
    assert Reversed(parts) == [parts[3], parts[2], parts[1], parts[0]];
  }

  // ---------------------------------------------------------------------
  // validate_target
  // ---------------------------------------------------------------------

  const InvalidTargetMessage := "Target must be a valid IP address or domain name"

  /**
   * `validate_target`: the address check first, then the domain pattern of
   * `is_valid_domain` (utils/ip.py repeats the regex of utils/validators.py
   * verbatim, so the model uses the one predicate).
   */
  function ValidateTarget(target: string): (r: (bool, string))
    ensures r.0 <==> IsValidIp(target) || Validators.IsValidDomain(target)
    ensures r.1 == if r.0 then "" else InvalidTargetMessage
    ensures IsValidIp(target) ==> r == (true, "")
  {
    if IsValidIp(target) then (true, "")
    else if Validators.IsValidDomain(target) then (true, "")
    else (false, InvalidTargetMessage)
  }
}
