/** Types and constants shared by the two repository-access drivers:
    optional values, bytes, revision numbers with their decimal text form,
    and the property names the drivers hand to an editor. */
module SvnTypes {

  datatype Option<+T> = None | Some(value: T)

  type Byte = x: int | 0 <= x < 256
  type Bytes = seq<Byte>

  /** A path or URL as a sequence of components. Adding and removing a
      component (svn_path_add_component / svn_path_remove_component) are
      append and drop-last on it. */
  type Path = seq<string>

  // ---------------------------------------------------------------------
  // Revision numbers (svn_revnum_t)
  // ---------------------------------------------------------------------

  /** SVN_INVALID_REVNUM; SVN_IGNORED_REVNUM has the same value. */
  const InvalidRevnum: int := -1
  const IgnoredRevnum: int := -1

  /** SVN_IS_VALID_REVNUM */
  predicate IsValidRevnum(r: int) {
    r >= 0
  }

  predicate IsDigit(c: char) {
    '0' <= c <= '9'
  }

  function DigitChar(d: int): (c: char)
    requires 0 <= d < 10
    ensures IsDigit(c)
  {
    "0123456789"[d]
  }

  function DigitValue(c: char): (d: nat)
    requires IsDigit(c)
    ensures d < 10
  {
    c as int - '0' as int
  }

  /** The decimal digits of n, most significant first, without leading zeros. */
  function NatToDecimal(n: nat): (s: string)
    ensures |s| > 0
    ensures forall i :: 0 <= i < |s| ==> IsDigit(s[i])
    decreases n
  {
    if n < 10 then [DigitChar(n)] else NatToDecimal(n / 10) + [DigitChar(n % 10)]
  }

  /** The text printf's "%ld" produces for a revision number. */
  function RevToString(r: int): string {
    if r < 0 then "-" + NatToDecimal(-r) else NatToDecimal(r)
  }

  predicate IsSpace(c: char) {
    c == ' ' || c == '\t' || c == '\n' || c == '\r' || c == '\U{0B}' || c == '\U{0C}'
  }

  function SkipSpace(s: string): (t: string)
    ensures |t| <= |s| && t == s[|s| - |t|..]
    ensures |t| > 0 ==> !IsSpace(t[0])
  {
    if |s| > 0 && IsSpace(s[0]) then SkipSpace(s[1..]) else s
  }

  /** The longest prefix of s made of decimal digits. */
  function LeadingDigits(s: string): (t: string)
    ensures |t| <= |s| && t == s[..|t|]
    ensures forall i :: 0 <= i < |t| ==> IsDigit(t[i])
    ensures |t| < |s| ==> !IsDigit(s[|t|])
  {
    if |s| > 0 && IsDigit(s[0]) then [s[0]] + LeadingDigits(s[1..]) else []
  }

  /** The value of a string of decimal digits; the empty string is 0. */
  function DigitsValue(s: string): nat
    requires forall i :: 0 <= i < |s| ==> IsDigit(s[i])
  {
    if s == [] then 0 else 10 * DigitsValue(s[..|s| - 1]) + DigitValue(s[|s| - 1])
  }

  /** SVN_STR_TO_REV, that is atol: leading white space, an optional sign,
      then as many decimal digits as follow. Text without digits reads as 0. */
  function StrToRev(s: string): int {
    var t := SkipSpace(s);
    if |t| > 0 && t[0] == '-' then -(DigitsValue(LeadingDigits(t[1..])) as int)
    else if |t| > 0 && t[0] == '+' then DigitsValue(LeadingDigits(t[1..]))
    else DigitsValue(LeadingDigits(t))
  }

  lemma {:induction false} AllDigitsLeading(s: string)
    requires forall i :: 0 <= i < |s| ==> IsDigit(s[i])
    ensures LeadingDigits(s) == s
  {
    if |s| > 0 {
      AllDigitsLeading(s[1..]);
    }
  }

  lemma {:induction false} DecimalValue(n: nat)
    ensures DigitsValue(NatToDecimal(n)) == n
    decreases n
  {
    if n >= 10 {
      var s := NatToDecimal(n);
      assert s[..|s| - 1] == NatToDecimal(n / 10);
      DecimalValue(n / 10);
    }
  }

  /** atol of text that starts with a digit reads its leading digits. */
  lemma ReadUnsigned(t: string)
    requires |t| > 0 && IsDigit(t[0])
    ensures StrToRev(t) == DigitsValue(LeadingDigits(t))
  {
    assert !IsSpace(t[0]);
    assert SkipSpace(t) == t;
    assert t[0] != '-' && t[0] != '+';
  }

  /** atol of a minus sign followed by a digit reads the negated digits. */
  lemma ReadNegative(t: string)
    requires |t| > 0 && IsDigit(t[0])
    ensures StrToRev("-" + t) == -(DigitsValue(LeadingDigits(t)) as int)
  {
    var s := "-" + t;
    assert s[0] == '-' && !IsSpace(s[0]);
    assert SkipSpace(s) == s;
    assert s[1..] == t;
  }

  lemma DecimalReadsBack(n: nat)
    ensures StrToRev(NatToDecimal(n)) == n
  {
    var d := NatToDecimal(n);
    ReadUnsigned(d);
    AllDigitsLeading(d);
    DecimalValue(n);
  }

  lemma NegativeReadsBack(n: nat)
    ensures StrToRev("-" + NatToDecimal(n)) == -(n as int)
  {
    var d := NatToDecimal(n);
    ReadNegative(d);
    AllDigitsLeading(d);
    DecimalValue(n);
  }

  /** Reading back the "%ld" text of a revision number gives the number:
      the revision the checkout writes into committed-rev is the one a
      report's rev attribute carries. */
  lemma RevToStringRoundTrip(r: int)
    ensures StrToRev(RevToString(r)) == r
  {
    if r < 0 {
      assert RevToString(r) == "-" + NatToDecimal(-r);
      NegativeReadsBack(-r);
    } else {
      assert RevToString(r) == NatToDecimal(r);
      DecimalReadsBack(r);
    }
  }

  // ---------------------------------------------------------------------
  // Property names
  // ---------------------------------------------------------------------

  /** SVN_PROP_PREFIX; also SVN_XML_NAMESPACE, the namespace of the report. */
  const PropPrefix: string := "svn:"
  /** SVN_PROP_CUSTOM_PREFIX: user properties as the DAV server names them. */
  const CustomPrefix: string := "svn:custom:"
  /** SVN_PROP_ENTRY_COMMITTED_REV / _COMMITTED_DATE / _LAST_AUTHOR. */
  const EntryCommittedRev: string := "svn:entry:committed-rev"
  const EntryCommittedDate: string := "svn:entry:committed-date"
  const EntryLastAuthor: string := "svn:entry:last-author"
  /** The DAV: namespace and the live properties that carry entry information. */
  const DavNamespace: string := "DAV:"
  const DavVersionName: string := DavNamespace + "version-name"
  const DavCreationDate: string := DavNamespace + "creationdate"
  const DavCreatorDisplayname: string := DavNamespace + "creator-displayname"
  const DavCheckedIn: string := "DAV:checked-in"
  /** Working-copy properties private to the DAV access layer. */
  const WcVersionUrl: string := "svn:wc:ra_dav:version-url"
  const WcActivityUrl: string := "svn:wc:ra_dav:activity-url"
  /** The property name a status report uses to flag "some property changed". */
  const Bogosity: string := "svn:BOGOSITY"

  predicate HasPrefix(s: string, p: string) {
    |p| <= |s| && s[..|p|] == p
  }
}
