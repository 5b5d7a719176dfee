/**
 * The e-mail check of the customer cleaner: a full match of
 * `^[\w\.-]+@[\w\.-]+\.\w+$`, where `$` also matches just before a final
 * newline. `\w` is taken as ASCII letters, digits and underscore.
 */
module EmailPattern {
  import opened Wrappers

  predicate IsWordChar(c: char) {
    ('a' <= c <= 'z') || ('A' <= c <= 'Z') || ('0' <= c <= '9') || c == '_'
  }

  /** The class `[\w\.-]`. */
  predicate IsAddressChar(c: char) {
    IsWordChar(c) || c == '.' || c == '-'
  }

  predicate AllWord(s: string) {
    forall k :: 0 <= k < |s| ==> IsWordChar(s[k])
  }

  predicate AllAddress(s: string) {
    forall k :: 0 <= k < |s| ==> IsAddressChar(s[k])
  }

  /**
   * The whole of s is `[\w\.-]+ @ [\w\.-]+ \. \w+`: an '@' at i and a '.'
   * at j split it into a non-empty local part, a non-empty domain and a
   * non-empty word suffix.
   */
  ghost predicate MatchesWhole(s: string) {
    exists i, j :: 0 < i && i + 1 < j && j + 1 < |s| && s[i] == '@' && s[j] == '.'
      && AllAddress(s[..i]) && AllAddress(s[i + 1..j]) && AllWord(s[j + 1..])
  }

  /** What `re.match` with this pattern accepts. */
  ghost predicate MatchesPattern(s: string) {
    MatchesWhole(s) || (|s| > 0 && s[|s| - 1] == '\n' && MatchesWhole(s[..|s| - 1]))
  }

  /** Position of the first c in s, or |s|. */
  function IndexOf(s: string, c: char): (i: int)
    ensures 0 <= i <= |s|
    ensures i < |s| ==> s[i] == c
    ensures forall k :: 0 <= k < i ==> s[k] != c
  {
    if |s| == 0 then 0
    else if s[0] == c then 0
    else 1 + IndexOf(s[1..], c)
  }

  /** Position of the last c in s, or -1. */
  function LastIndexOf(s: string, c: char): (i: int)
    ensures -1 <= i < |s|
    ensures i >= 0 ==> s[i] == c
    ensures forall k :: i < k < |s| ==> s[k] != c
  {
    if |s| == 0 then -1
    else if s[|s| - 1] == c then |s| - 1
    else LastIndexOf(s[..|s| - 1], c)
  }

  /**
   * The scan: the local part ends at the first '@', and the word suffix
   * starts after the last '.' of the rest.
   */
  function ScanWhole(s: string): bool {
    var at := IndexOf(s, '@');
    if at == 0 || at >= |s| || !AllAddress(s[..at]) then false
    else
      var domain := s[at + 1..];
      var dot := LastIndexOf(domain, '.');
      AllAddress(domain) && dot >= 1 && dot + 1 < |domain| && AllWord(domain[dot + 1..])
  }

  lemma ScanWholeCorrect(s: string)
    ensures ScanWhole(s) <==> MatchesWhole(s)
  {
    if ScanWhole(s) {
      ScanGivesSplit(s);
    }
    if MatchesWhole(s) {
      var i, j :| 0 < i && i + 1 < j && j + 1 < |s| && s[i] == '@' && s[j] == '.'
        && AllAddress(s[..i]) && AllAddress(s[i + 1..j]) && AllWord(s[j + 1..]);
      SplitGivesScan(s, i, j);
    }
  }

  /** The positions the scan finds are a split the pattern accepts. */
  lemma ScanGivesSplit(s: string)
    requires ScanWhole(s)
    ensures MatchesWhole(s)
  {
    var at := IndexOf(s, '@');
    var domain := s[at + 1..];
    var dot := LastIndexOf(domain, '.');
    var i, j := at, at + 1 + dot;
    assert s[i + 1..j] == domain[..dot];
    assert s[j + 1..] == domain[dot + 1..];
    assert s[j] == domain[dot];
    assert AllAddress(s[i + 1..j]) by {
      assert forall k :: 0 <= k < dot ==> domain[..dot][k] == domain[k];
    }
  }

  /** Any accepted split is the one the scan finds: the first '@' and the last '.'. */
  lemma SplitGivesScan(s: string, i: int, j: int)
    requires 0 < i && i + 1 < j && j + 1 < |s| && s[i] == '@' && s[j] == '.'
    requires AllAddress(s[..i]) && AllAddress(s[i + 1..j]) && AllWord(s[j + 1..])
    ensures ScanWhole(s)
  {
    assert forall k :: 0 <= k < i ==> s[k] == s[..i][k] && s[k] != '@';
    var at := IndexOf(s, '@');
    assert at == i;
    var domain := s[i + 1..];
    var d := j - i - 1;
    assert domain[d] == '.';
    DomainChars(s, i, j);
    forall k | d < k < |domain| ensures domain[k] != '.' {
      assert domain[k] == s[j + 1..][k - d - 1];
    }
    var dot := LastIndexOf(domain, '.');
    assert dot == d;
    assert domain[dot + 1..] == s[j + 1..];
  }

  lemma DomainChars(s: string, i: int, j: int)
    requires 0 < i && i + 1 < j && j + 1 < |s| && s[j] == '.'
    requires AllAddress(s[i + 1..j]) && AllWord(s[j + 1..])
    ensures AllAddress(s[i + 1..])
  {
    var domain := s[i + 1..];
    var d := j - i - 1;
    forall k | 0 <= k < |domain| ensures IsAddressChar(domain[k]) {
      if k < d {
        assert domain[k] == s[i + 1..j][k];
      } else if k > d {
        assert domain[k] == s[j + 1..][k - d - 1];
      }
    }
  }

  /** The compiled pattern's verdict on one address. */
  function IsValidAddress(s: string): (valid: bool)
    ensures valid <==> MatchesPattern(s)
  {
    ScanWholeCorrect(s);
    if |s| > 0 && s[|s| - 1] == '\n' then
      ScanWholeCorrect(s[..|s| - 1]);
      ScanWhole(s) || ScanWhole(s[..|s| - 1])
    else
      ScanWhole(s)
  }

  /** A missing address is checked as the empty string and so is invalid. */
  function IsValidEmail(email: Option<string>): (valid: bool)
    ensures email.None? ==> !valid
    ensures email.Some? ==> (valid <==> MatchesPattern(email.value))
  {
    IsValidAddress(email.GetOr(""))
  }

  /**
   * A non-empty local part, '@', a non-empty domain, '.' and a non-empty
   * word suffix make a valid address, with or without a final newline.
   */
  lemma SplitValid(local: string, domain: string, suffix: string)
    requires |local| > 0 && |domain| > 0 && |suffix| > 0
    requires AllAddress(local) && AllAddress(domain) && AllWord(suffix)
    ensures IsValidEmail(Some(local + "@" + domain + "." + suffix))
    ensures IsValidEmail(Some(local + "@" + domain + "." + suffix + "\n"))
  {
    var s := local + "@" + domain + "." + suffix;
    var i, j := |local|, |local| + 1 + |domain|;
    assert s[..i] == local;
    assert s[i + 1..j] == domain;
    assert s[j + 1..] == suffix;
    assert s[i] == '@' && s[j] == '.';
    assert MatchesWhole(s);
    var u := s + "\n";
    assert u[..|u| - 1] == s;
  }

  /** Each of the given positions of s holds an address character. */
  lemma AddressRange(s: string, lo: int, hi: int)
    requires 0 <= lo <= hi <= |s|
    requires forall k :: lo <= k < hi ==> IsAddressChar(s[k])
    ensures AllAddress(s[lo..hi])
  {
    assert forall k :: 0 <= k < hi - lo ==> s[lo..hi][k] == s[lo + k];
  }

  /** "a@b.com" is valid, and so is "a@b.com" with a final newline. */
  lemma ValidEmailExamples()
    ensures IsValidEmail(Some("a@b.com"))
    ensures IsValidEmail(Some("a@b.com\n"))
  {
    var s := "a@b.com";
    assert s[0] == 'a' && s[1] == '@' && s[2] == 'b' && s[3] == '.';
    assert s[4] == 'c' && s[5] == 'o' && s[6] == 'm';
    AddressRange(s, 0, 1);
    AddressRange(s, 2, 3);
    AddressRange(s, 4, 7);
    assert AllWord(s[4..]);
    assert MatchesWhole(s);
    var u := "a@b.com\n";
    assert u[..|u| - 1] == s;
  }

  /** "ivan@example.com" is valid. */
  lemma ValidEmailExample()
    ensures IsValidEmail(Some("ivan@example.com"))
  {
    var s := "ivan@example.com";
    assert s[0] == 'i' && s[1] == 'v' && s[2] == 'a' && s[3] == 'n' && s[4] == '@';
    assert s[5] == 'e' && s[6] == 'x' && s[7] == 'a' && s[8] == 'm' && s[9] == 'p' && s[10] == 'l' && s[11] == 'e';
    assert s[12] == '.' && s[13] == 'c' && s[14] == 'o' && s[15] == 'm';
    AddressRange(s, 0, 4);
    AddressRange(s, 5, 12);
    AddressRange(s, 13, 16);
    assert AllWord(s[13..]);
    assert MatchesWhole(s);
  }

  /** Addresses without an '@' are invalid. */
  lemma NoAtInvalid(s: string)
    requires forall k :: 0 <= k < |s| ==> s[k] != '@'
    ensures !IsValidEmail(Some(s))
  {
  }

  /** Addresses without a '.' are invalid. */
  lemma NoDotInvalid(s: string)
    requires forall k :: 0 <= k < |s| ==> s[k] != '.'
    ensures !IsValidEmail(Some(s))
  {
  }

  /** "", a missing address and "a@b" are invalid. */
  lemma InvalidEmailExamples()
    ensures !IsValidEmail(Some(""))
    ensures !IsValidEmail(None)
    ensures !IsValidEmail(Some("a@b"))
  {
    NoAtInvalid("");
    var s := "a@b";
    assert s[0] == 'a' && s[1] == '@' && s[2] == 'b';
    NoDotInvalid(s);
  }

  /** "not-an-email" is invalid. */
  lemma NotAnEmailInvalid()
    ensures !IsValidEmail(Some("not-an-email"))
  {
    var s := "not-an-email";
    assert s[0] == 'n' && s[1] == 'o' && s[2] == 't' && s[3] == '-' && s[4] == 'a' && s[5] == 'n';
    assert s[6] == '-' && s[7] == 'e' && s[8] == 'm' && s[9] == 'a' && s[10] == 'i' && s[11] == 'l';
    NoAtInvalid(s);
  }

  /** "invalid-email" is invalid. */
  lemma InvalidEmailInvalid()
    ensures !IsValidEmail(Some("invalid-email"))
  {
    var s := "invalid-email";
    assert s[0] == 'i' && s[1] == 'n' && s[2] == 'v' && s[3] == 'a' && s[4] == 'l' && s[5] == 'i' && s[6] == 'd';
    assert s[7] == '-' && s[8] == 'e' && s[9] == 'm' && s[10] == 'a' && s[11] == 'i' && s[12] == 'l';
    NoAtInvalid(s);
  }
}
