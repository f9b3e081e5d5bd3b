/**
 * `isValidEmail`: the test `/^[^\s@]+@[^\s@]+\.[^\s@]+$/` written out as a
 * string predicate.
 */
module Email {
  import opened Whitespace

  /** A character of the class `[^\s@]`. */
  predicate AddressChar(c: char) {
    !IsSpace(c) && c != '@'
  }

  /** A run of `[^\s@]+`. */
  predicate AddressPart(s: string) {
    |s| > 0 && forall i :: 0 <= i < |s| ==> AddressChar(s[i])
  }

  /** The whole string splits as local part, `@`, domain head, `.`, domain
      tail, each part a non-empty run of `[^\s@]`. */
  predicate IsValidEmail(email: string) {
    exists at, dot | 0 < at && at + 1 < dot && dot + 1 < |email| ::
      && email[at] == '@' && email[dot] == '.'
      && AddressPart(email[..at])
      && AddressPart(email[at + 1..dot])
      && AddressPart(email[dot + 1..])
  }

  /** The address in plain words: no white space, exactly one `@`, something
      before it, and a `.` after it that is neither the first nor the last
      character of the domain. */
  ghost predicate EmailShape(email: string) {
    && (forall i :: 0 <= i < |email| ==> !IsSpace(email[i]))
    && exists at ::
      && 0 < at < |email| && email[at] == '@'
      && (forall j :: 0 <= j < |email| && j != at ==> email[j] != '@')
      && exists dot :: at + 1 < dot < |email| - 1 && email[dot] == '.'
  }

  /** The pattern and the plain-words description accept the same strings. */
  lemma ValidEmailIffShape(email: string)
    ensures IsValidEmail(email) <==> EmailShape(email)
  {
    if IsValidEmail(email) {
      var at, dot :| 0 < at && at + 1 < dot && dot + 1 < |email|
        && email[at] == '@' && email[dot] == '.'
        && AddressPart(email[..at])
        && AddressPart(email[at + 1..dot])
        && AddressPart(email[dot + 1..]);
      forall j | 0 <= j < |email| && j != at
        ensures !IsSpace(email[j]) && email[j] != '@'
      {
        if j < at {
          assert email[j] == email[..at][j];
        } else if j < dot {
          assert email[j] == email[at + 1..dot][j - at - 1];
        } else if j > dot {
          assert email[j] == email[dot + 1..][j - dot - 1];
        }
      }
      assert EmailShape(email);
    }
    if EmailShape(email) {
      var at :| 0 < at < |email| && email[at] == '@'
        && (forall j :: 0 <= j < |email| && j != at ==> email[j] != '@')
        && exists dot :: at + 1 < dot < |email| - 1 && email[dot] == '.';
      var dot :| at + 1 < dot < |email| - 1 && email[dot] == '.';
      assert AddressPart(email[..at]);
      assert AddressPart(email[at + 1..dot]);
      assert AddressPart(email[dot + 1..]);
    }
  }

  /** The domain may hold further dots, but never a second `@`. */
  lemma SecondAtRejected(email: string, i: nat, j: nat)
    requires i < j < |email| && email[i] == '@' && email[j] == '@'
    ensures !IsValidEmail(email)
  {
    ValidEmailIffShape(email);
  }

  /** Leading or trailing white space is rejected: the test runs on the
      untrimmed value. */
  lemma SurroundingSpaceRejected(email: string)
    requires |email| > 0 && (IsSpace(email[0]) || IsSpace(email[|email| - 1]))
    ensures !IsValidEmail(email)
  {
    ValidEmailIffShape(email);
  }

  lemma AcceptsPlainAddress()
    ensures IsValidEmail("a@b.com")
  {
    var e := "a@b.com";
    assert e[1] == '@' && e[3] == '.';
    assert AddressPart(e[..1]) && AddressPart(e[2..3]) && AddressPart(e[4..]);
  }

  lemma RejectsMissingAt()
    ensures !IsValidEmail("not-an-email")
  {
    var e := "not-an-email";
    forall i | 0 <= i < |e| ensures e[i] != '@' { }
  }
}
