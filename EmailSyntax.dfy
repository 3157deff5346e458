/**
 * The email-address check of the signup handler: the regular expression
 *
 *   ^(LOCAL)@(DOMAIN)$   with
 *   LOCAL  = ([^<>()\[\]\\.,;:\s@"]+(\.[^<>()\[\]\\.,;:\s@"]+)*) | (".+")
 *   DOMAIN = (\[[0-9]{1,3}\.[0-9]{1,3}\.[0-9]{1,3}\.[0-9]{1,3}]) | (([a-zA-Z\-0-9]+\.)+[a-zA-Z]{2,})
 *
 * The ghost predicates below follow the regular expression's structure, with an
 * existential choice wherever the regex engine may backtrack. The executable
 * recogniser IsValidEmail makes every choice deterministic, and the lemma
 * RecogniserIsPattern proves that it accepts exactly the strings the pattern matches.
 */
module EmailSyntax {
  import opened Wrappers

  // ---------------------------------------------------------------------------
  // Character classes
  // ---------------------------------------------------------------------------

  /** `\s` of an ECMAScript regular expression: WhiteSpace and LineTerminator. */
  predicate IsRegexSpace(c: char)
  {
    || c == '\t' || c == '\n' || c == '\U{B}' || c == '\U{C}' || c == '\r' || c == ' '
    || c == '\U{A0}' || c == '\U{1680}' || ('\U{2000}' <= c <= '\U{200A}')
    || c == '\U{2028}' || c == '\U{2029}' || c == '\U{202F}' || c == '\U{205F}'
    || c == '\U{3000}' || c == '\U{FEFF}'
  }

  /** The characters `.` refuses when the regular expression has no `s` flag. */
  predicate IsLineTerminator(c: char)
  {
    c == '\n' || c == '\r' || c == '\U{2028}' || c == '\U{2029}'
  }

  /** `[^<>()\[\]\\.,;:\s@"]`: a character allowed in an unquoted local-part atom. */
  predicate IsAtomChar(c: char)
  {
    c !in "<>()[]\\.,;:@\"" && !IsRegexSpace(c)
  }

  /** `[0-9]` */
  predicate IsAsciiDigit(c: char)
  {
    '0' <= c <= '9'
  }

  /** `[a-zA-Z]` */
  predicate IsAsciiLetter(c: char)
  {
    ('a' <= c <= 'z') || ('A' <= c <= 'Z')
  }

  /** `[a-zA-Z\-0-9]` */
  predicate IsLabelChar(c: char)
  {
    IsAsciiLetter(c) || IsAsciiDigit(c) || c == '-'
  }

  predicate AllAtomChars(s: string)
  {
    forall k :: 0 <= k < |s| ==> IsAtomChar(s[k])
  }

  predicate AllLabelChars(s: string)
  {
    forall k :: 0 <= k < |s| ==> IsLabelChar(s[k])
  }

  /** `[0-9]{1,3}` */
  predicate IsDigitGroup(s: string)
  {
    1 <= |s| <= 3 && forall k :: 0 <= k < |s| ==> IsAsciiDigit(s[k])
  }

  /** `[a-zA-Z]{2,}`: the last label of a host name. */
  predicate IsTopLabel(s: string)
  {
    |s| >= 2 && forall k :: 0 <= k < |s| ==> IsAsciiLetter(s[k])
  }

  /** `".+"`: a quoted local part; inside the quotes anything but a line terminator, quotes included. */
  predicate IsQuotedString(s: string)
  {
    |s| >= 3 && s[0] == '"' && s[|s| - 1] == '"'
    && forall k :: 0 < k < |s| - 1 ==> !IsLineTerminator(s[k])
  }

  // ---------------------------------------------------------------------------
  // The pattern, following the structure of the regular expression
  // ---------------------------------------------------------------------------

  /** `[^…]+(\.[^…]+)*`: one atom, or an atom, a dot and again a dot-atom. */
  ghost predicate DotAtom(s: string)
    decreases |s|
  {
    || (|s| >= 1 && AllAtomChars(s))
    || exists i :: 0 < i < |s| && s[i] == '.' && AllAtomChars(s[..i]) && DotAtom(s[i + 1..])
  }

  ghost predicate LocalPart(s: string)
  {
    DotAtom(s) || IsQuotedString(s)
  }

  /** n digit groups separated by single dots. */
  ghost predicate DigitGroups(s: string, n: nat)
    decreases n, 1
  {
    if n <= 1 then n == 1 && IsDigitGroup(s)
    else exists i :: GroupThenGroups(s, n, i)
  }

  /** A digit group ends at position i, a dot stands there, and n - 1 groups follow. */
  ghost predicate GroupThenGroups(s: string, n: nat, i: int)
    requires n >= 1
    decreases n, 0
  {
    0 <= i < |s| && s[i] == '.' && IsDigitGroup(s[..i]) && DigitGroups(s[i + 1..], n - 1)
  }

  /** `\[[0-9]{1,3}\.[0-9]{1,3}\.[0-9]{1,3}\.[0-9]{1,3}]` (no check that a group is at most 255). */
  ghost predicate AddressLiteral(s: string)
  {
    |s| >= 2 && s[0] == '[' && s[|s| - 1] == ']' && DigitGroups(s[1..|s| - 1], 4)
  }

  /** `([a-zA-Z\-0-9]+\.)+[a-zA-Z]{2,}` */
  ghost predicate HostName(s: string)
    decreases |s|
  {
    exists i :: 0 < i < |s| && s[i] == '.' && AllLabelChars(s[..i])
                && (IsTopLabel(s[i + 1..]) || HostName(s[i + 1..]))
  }

  ghost predicate Domain(s: string)
  {
    AddressLiteral(s) || HostName(s)
  }

  /** The `@` at position i ends a local part and starts a domain. */
  ghost predicate SplitsAt(s: string, i: int)
  {
    0 <= i < |s| && s[i] == '@' && LocalPart(s[..i]) && Domain(s[i + 1..])
  }

  /** The whole regular expression: some `@` splits the string into a local part and a domain. */
  ghost predicate EmailPattern(s: string)
  {
    exists i :: SplitsAt(s, i)
  }

  // ---------------------------------------------------------------------------
  // The recogniser
  // ---------------------------------------------------------------------------

  /** The position of the first c in s. */
  function IndexOf(s: string, c: char): (r: Option<nat>)
    ensures r.None? <==> c !in s
    ensures r.Some? ==> r.value < |s| && s[r.value] == c && c !in s[..r.value]
  {
    if |s| == 0 then None
    else if s[0] == c then Some(0)
    else match IndexOf(s[1..], c)
      case None => None
      case Some(i) => assert s[1..][..i] == s[1..i + 1]; Some(i + 1)
  }

  /** The position of the last c in s. */
  function LastIndexOf(s: string, c: char): (r: Option<nat>)
    ensures r.None? <==> c !in s
    ensures r.Some? ==> r.value < |s| && s[r.value] == c && c !in s[r.value + 1..]
  {
    if |s| == 0 then None
    else if s[|s| - 1] == c then Some(|s| - 1)
    else match LastIndexOf(s[..|s| - 1], c)
      case None => None
      case Some(i) => assert s[i + 1..] == s[..|s| - 1][i + 1..] + [s[|s| - 1]]; Some(i)
  }

  /** A dot-atom: atoms never hold a dot, so each one ends at the next dot. */
  predicate ScanDotAtom(s: string)
    decreases |s|
  {
    match IndexOf(s, '.')
    case None => |s| >= 1 && AllAtomChars(s)
    case Some(i) => 0 < i && AllAtomChars(s[..i]) && ScanDotAtom(s[i + 1..])
  }

  predicate ScanDigitGroups(s: string, n: nat)
    decreases n
  {
    if n <= 1 then n == 1 && IsDigitGroup(s)
    else match IndexOf(s, '.')
      case None => false
      case Some(i) => IsDigitGroup(s[..i]) && ScanDigitGroups(s[i + 1..], n - 1)
  }

  predicate ScanAddressLiteral(s: string)
  {
    |s| >= 2 && s[0] == '[' && s[|s| - 1] == ']' && ScanDigitGroups(s[1..|s| - 1], 4)
  }

  /** Labels never hold a dot, so each one ends at the next dot. */
  predicate ScanHostName(s: string)
    decreases |s|
  {
    match IndexOf(s, '.')
    case None => false
    case Some(i) =>
      0 < i && AllLabelChars(s[..i]) && (IsTopLabel(s[i + 1..]) || ScanHostName(s[i + 1..]))
  }

  /** The test the signup handler runs on a non-empty email. A domain never holds an `@`,
      so the local part ends at the last `@`. */
  predicate IsValidEmail(s: string)
    ensures IsValidEmail(s) ==> '@' in s
  {
    match LastIndexOf(s, '@')
    case None => false
    case Some(i) =>
      && (ScanDotAtom(s[..i]) || IsQuotedString(s[..i]))
      && (ScanAddressLiteral(s[i + 1..]) || ScanHostName(s[i + 1..]))
  }

  // ---------------------------------------------------------------------------
  // The recogniser accepts exactly the pattern's strings
  // ---------------------------------------------------------------------------

  /** If a prefix of s has no c and is followed by c, it ends at the first c. */
  lemma FirstOccurrence(s: string, c: char, i: nat)
    requires i < |s| && s[i] == c && c !in s[..i]
    ensures IndexOf(s, c) == Some(i)
  {
  }

  lemma AtomHasNoDotOrAt(s: string)
    requires AllAtomChars(s)
    ensures '.' !in s && '@' !in s
  {
  }

  lemma LabelHasNoDotOrAt(s: string)
    requires AllLabelChars(s)
    ensures '.' !in s && '@' !in s
  {
  }

  lemma TopLabelHasNoDotOrAt(s: string)
    requires IsTopLabel(s)
    ensures '.' !in s && '@' !in s
  {
  }

  lemma DigitGroupHasNoDotOrAt(s: string)
    requires IsDigitGroup(s)
    ensures '.' !in s && '@' !in s
  {
  }

  /** No `@` on either side of position i, and none at i: none in s. */
  lemma NoAtAround(s: string, i: nat)
    requires i < |s| && s[i] != '@' && '@' !in s[..i] && '@' !in s[i + 1..]
    ensures '@' !in s
  {
    assert s == s[..i] + [s[i]] + s[i + 1..];
  }

  lemma {:induction false} DotAtomScanned(s: string)
    ensures ScanDotAtom(s) <==> DotAtom(s)
    decreases |s|
  {
    match IndexOf(s, '.')
    case None =>
      assert forall i :: 0 <= i < |s| ==> s[i] != '.';
    case Some(i) =>
      assert !AllAtomChars(s) by { assert !IsAtomChar(s[i]); }
      DotAtomScanned(s[i + 1..]);
      if DotAtom(s) {
        var j :| 0 < j < |s| && s[j] == '.' && AllAtomChars(s[..j]) && DotAtom(s[j + 1..]);
        AtomHasNoDotOrAt(s[..j]);
        FirstOccurrence(s, '.', j);
      }
  }

  lemma {:induction false} DigitGroupsScanned(s: string, n: nat)
    ensures ScanDigitGroups(s, n) <==> DigitGroups(s, n)
    decreases n, 1
  {
    if n > 1 {
      if ScanDigitGroups(s, n) {
        var i := IndexOf(s, '.').value;
        DigitGroupsScanned(s[i + 1..], n - 1);
        assert GroupThenGroups(s, n, i);
      }
      if DigitGroups(s, n) {
        DigitGroupsFirstDot(s, n);
      }
    }
  }

  /** When n groups follow one another, the first group ends at the first dot. */
  lemma {:induction false} DigitGroupsFirstDot(s: string, n: nat)
    requires n > 1 && DigitGroups(s, n)
    ensures ScanDigitGroups(s, n)
    decreases n, 0
  {
    var j :| GroupThenGroups(s, n, j);
    DigitGroupHasNoDotOrAt(s[..j]);
    FirstOccurrence(s, '.', j);
    DigitGroupsScanned(s[j + 1..], n - 1);
  }

  lemma {:induction false} HostNameScanned(s: string)
    ensures ScanHostName(s) <==> HostName(s)
    decreases |s|
  {
    match IndexOf(s, '.')
    case None =>
      assert forall i :: 0 <= i < |s| ==> s[i] != '.';
    case Some(i) =>
      HostNameScanned(s[i + 1..]);
      if HostName(s) {
        var j :| 0 < j < |s| && s[j] == '.' && AllLabelChars(s[..j])
                  && (IsTopLabel(s[j + 1..]) || HostName(s[j + 1..]));
        LabelHasNoDotOrAt(s[..j]);
        FirstOccurrence(s, '.', j);
      }
  }

  lemma {:induction false} DigitGroupsHaveNoAt(s: string, n: nat)
    requires DigitGroups(s, n)
    ensures '@' !in s
    decreases n
  {
    if n <= 1 {
      DigitGroupHasNoDotOrAt(s);
    } else {
      var i :| GroupThenGroups(s, n, i);
      var head, tail := s[..i], s[i + 1..];
      DigitGroupHasNoDotOrAt(head);
      DigitGroupsHaveNoAt(tail, n - 1);
      NoAtAround(s, i);
    }
  }

  lemma {:induction false} HostNameHasNoAt(s: string)
    requires HostName(s)
    ensures '@' !in s
    decreases |s|
  {
    var i :| 0 < i < |s| && s[i] == '.' && AllLabelChars(s[..i])
              && (IsTopLabel(s[i + 1..]) || HostName(s[i + 1..]));
    LabelHasNoDotOrAt(s[..i]);
    if IsTopLabel(s[i + 1..]) {
      TopLabelHasNoDotOrAt(s[i + 1..]);
    } else {
      HostNameHasNoAt(s[i + 1..]);
    }
    NoAtAround(s, i);
  }

  /** Neither domain alternative can contain an `@`. */
  lemma DomainHasNoAt(s: string)
    requires Domain(s)
    ensures '@' !in s
  {
    if HostName(s) {
      HostNameHasNoAt(s);
    } else {
      DigitGroupsHaveNoAt(s[1..|s| - 1], 4);
      assert s == [s[0]] + s[1..|s| - 1] + [s[|s| - 1]];
    }
  }

  /** If no c follows position i and c stands there, i is the last c. */
  lemma LastOccurrence(s: string, c: char, i: nat)
    requires i < |s| && s[i] == c && c !in s[i + 1..]
    ensures LastIndexOf(s, c) == Some(i)
  {
  }

  lemma AddressLiteralScanned(s: string)
    ensures ScanAddressLiteral(s) <==> AddressLiteral(s)
  {
    if |s| >= 2 { DigitGroupsScanned(s[1..|s| - 1], 4); }
  }

  /** Whatever the recogniser accepts, the regular expression matches. */
  lemma RecogniserSound(s: string)
    requires IsValidEmail(s)
    ensures EmailPattern(s)
  {
    var i := LastIndexOf(s, '@').value;
    var local, domain := s[..i], s[i + 1..];
    assert LocalPart(local) by { DotAtomScanned(local); }
    assert Domain(domain) by {
      HostNameScanned(domain);
      AddressLiteralScanned(domain);
    }
    assert SplitsAt(s, i);
  }

  /** Whatever the regular expression matches, the recogniser accepts. */
  lemma RecogniserComplete(s: string)
    requires EmailPattern(s)
    ensures IsValidEmail(s)
  {
    var j :| SplitsAt(s, j);
    var local, domain := s[..j], s[j + 1..];
    assert LastIndexOf(s, '@') == Some(j) by {
      DomainHasNoAt(domain);
      LastOccurrence(s, '@', j);
    }
    assert ScanDotAtom(local) || IsQuotedString(local) by { DotAtomScanned(local); }
    assert ScanAddressLiteral(domain) || ScanHostName(domain) by {
      HostNameScanned(domain);
      AddressLiteralScanned(domain);
    }
  }

  /** The recogniser agrees with the regular expression on every string. */
  lemma RecogniserIsPattern(s: string)
    ensures IsValidEmail(s) <==> EmailPattern(s)
  {
    if IsValidEmail(s) { RecogniserSound(s); }
    if EmailPattern(s) { RecogniserComplete(s); }
  }

  // ---------------------------------------------------------------------------
  // Consequences the signup handler relies on
  // ---------------------------------------------------------------------------

  /** A string without `@` is never a valid email. */
  lemma NoAtIsInvalid(s: string)
    requires '@' !in s
    ensures !IsValidEmail(s)
  {
  }

  /** If no `@` of s is followed by a bracketed four-group literal or by dotted labels
      ending in a label of two or more letters, s is not a valid email. */
  lemma BadDomainIsInvalid(s: string)
    requires forall i :: 0 <= i < |s| && s[i] == '@' ==> !Domain(s[i + 1..])
    ensures !IsValidEmail(s)
  {
    RecogniserIsPattern(s);
  }

  /** A dot-atom or quoted local part, an `@` and a domain always pass. */
  lemma WellFormedIsValid(local: string, domain: string)
    requires LocalPart(local) && Domain(domain)
    ensures IsValidEmail(local + "@" + domain)
  {
    var s := local + "@" + domain;
    assert s[..|local|] == local && s[|local| + 1..] == domain;
    assert SplitsAt(s, |local|);
    RecogniserComplete(s);
  }

  /** A plain address passes. */
  lemma PlainAddressIsValid()
    ensures IsValidEmail("ann@example.com")
  {
    var s := "ann@example.com";
    assert s[..3] == "ann" && s[4..] == "example.com";
    var domain := s[4..];
    assert domain[..7] == "example" && domain[8..] == "com";
    assert HostName(domain);
    assert SplitsAt(s, 3);
    RecogniserComplete(s);
  }

  /** Both domain alternatives contain a dot. */
  lemma DomainHasDot(d: string)
    requires Domain(d)
    ensures '.' in d
  {
    if !HostName(d) {
      var inner := d[1..|d| - 1];
      var j :| GroupThenGroups(inner, 4, j);
      assert d[j + 1] == inner[j];
    }
  }

  /** An email in which no `@` is followed by a dot is refused. */
  lemma DotlessDomainIsInvalid(s: string)
    requires forall i :: 0 <= i < |s| && s[i] == '@' ==> '.' !in s[i + 1..]
    ensures !IsValidEmail(s)
  {
    forall i | 0 <= i < |s| && s[i] == '@' ensures !Domain(s[i + 1..]) {
      if Domain(s[i + 1..]) { DomainHasDot(s[i + 1..]); }
    }
    BadDomainIsInvalid(s);
  }
}
