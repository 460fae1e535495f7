/**
 * The e-mail format check of signup: the JavaScript regular expression
 * `^[^\s@]+@[^\s@]+\.[^\s@]+$`, tested with `RegExp.prototype.test`.
 *
 * `MatchesEmailRegex` states the expression as written, piece by piece;
 * `IsValidEmail` is the decision procedure the controller model runs (split
 * at the `@`, then check the local part and the domain). `IsValidEmailIff`
 * proves the two agree on every string.
 */
module Email {
  import opened Wrappers
  import opened JsText

  /** The class `[^\s@]`: any character that is neither `\s` nor `@`. */
  predicate InClass(c: char) {
    !IsJsWhitespace(c) && c != '@'
  }

  /** Every character of `s` is in `[^\s@]`. */
  predicate AllInClass(s: string) {
    forall i :: 0 <= i < |s| ==> InClass(s[i])
  }

  /** `s` matches `[^\s@]+`. */
  predicate OneOrMore(s: string) {
    |s| >= 1 && AllInClass(s)
  }

  /**
   * The regular expression read literally: the whole string (the anchors `^`
   * and `$`, no multiline flag) is `[^\s@]+`, then `@`, then `[^\s@]+`, then a
   * literal `.`, then `[^\s@]+`.
   */
  ghost predicate MatchesEmailRegex(s: string) {
    exists i, j | 0 <= i < j < |s| ::
      OneOrMore(s[..i]) && s[i] == '@' && OneOrMore(s[i + 1..j]) && s[j] == '.' && OneOrMore(s[j + 1..])
  }

  /** The position of the first `c` in `s`, if any. */
  function IndexOf(s: string, c: char): (r: Option<nat>)
    ensures r.Some? ==> r.value < |s| && s[r.value] == c && c !in s[..r.value]
    ensures r.None? <==> c !in s
  {
    if s == [] then None
    else if s[0] == c then Some(0)
    else
      match IndexOf(s[1..], c)
      case None => None
      case Some(k) =>
        assert s[..k + 1] == [s[0]] + s[1..][..k];
        Some(k + 1)
  }

  /** `d` holds a `.` with at least one character before it and one after it. */
  predicate HasInnerDot(d: string) {
    exists j | 0 < j < |d| - 1 :: d[j] == '.'
  }

  /**
   * The check as a decision procedure: split at the first `@`; the local part
   * before it is non-empty and free of whitespace and `@`; the domain after it
   * is free of whitespace and `@` and contains an inner `.`.
   */
  predicate IsValidEmail(s: string) {
    match IndexOf(s, '@')
    case None => false
    case Some(k) => OneOrMore(s[..k]) && AllInClass(s[k + 1..]) && HasInnerDot(s[k + 1..])
  }

  /** A match of the regular expression fixes where its `@` is: the first one. */
  lemma RegexAtIsFirstAt(s: string, i: nat)
    requires i < |s| && AllInClass(s[..i]) && s[i] == '@'
    ensures IndexOf(s, '@') == Some(i)
  {
    assert s[i] in s;
  }

  /** Every string the decision procedure accepts matches the expression. */
  lemma IsValidEmailMatches(s: string)
    requires IsValidEmail(s)
    ensures MatchesEmailRegex(s)
  {
    var k := IndexOf(s, '@').value;
    var d := s[k + 1..];
    var j' :| 0 < j' < |d| - 1 && d[j'] == '.';
    var j := k + 1 + j';
    assert s[k + 1..j] == d[..j'];
    assert s[j + 1..] == d[j' + 1..];
    assert OneOrMore(s[k + 1..j]);
    assert OneOrMore(s[j + 1..]);
  }

  /** The class holds of a concatenation when it holds of both parts. */
  lemma AllInClassConcat(a: string, b: string)
    requires AllInClass(a) && AllInClass(b)
    ensures AllInClass(a + b)
  {
    forall p | 0 <= p < |a + b| ensures InClass((a + b)[p]) {
      if p >= |a| {
        assert (a + b)[p] == b[p - |a|];
      }
    }
  }

  /** The part after the `@` of a match is a valid domain. */
  lemma DomainOfMatch(s: string, i: nat, j: nat)
    requires i < j < |s| && OneOrMore(s[i + 1..j]) && s[j] == '.' && OneOrMore(s[j + 1..])
    ensures AllInClass(s[i + 1..]) && HasInnerDot(s[i + 1..])
  {
    var d := s[i + 1..];
    assert d == s[i + 1..j] + [s[j]] + s[j + 1..];
    AllInClassConcat(s[i + 1..j], [s[j]]);
    AllInClassConcat(s[i + 1..j] + [s[j]], s[j + 1..]);
    assert d[j - i - 1] == '.';
  }

  /** Every string the expression matches is accepted by the decision procedure. */
  lemma MatchesIsValidEmail(s: string)
    requires MatchesEmailRegex(s)
    ensures IsValidEmail(s)
  {
    var i, j :| 0 <= i < j < |s| && OneOrMore(s[..i]) && s[i] == '@'
      && OneOrMore(s[i + 1..j]) && s[j] == '.' && OneOrMore(s[j + 1..]);
    RegexAtIsFirstAt(s, i);
    DomainOfMatch(s, i, j);
  }

  /** The decision procedure accepts exactly the strings the expression matches. */
  lemma IsValidEmailIff(s: string)
    ensures IsValidEmail(s) <==> MatchesEmailRegex(s)
  {
    if IsValidEmail(s) { IsValidEmailMatches(s); }
    if MatchesEmailRegex(s) { MatchesIsValidEmail(s); }
  }

  /** Three runs of the class joined by `@` and `.` match the expression. */
  lemma Compose(local: string, host: string, tld: string)
    requires OneOrMore(local) && OneOrMore(host) && OneOrMore(tld)
    ensures MatchesEmailRegex(local + "@" + host + "." + tld)
  {
    var s := local + "@" + host + "." + tld;
    var i, j := |local|, |local| + 1 + |host|;
    assert s[..i] == local && s[i] == '@';
    assert s[i + 1..j] == host && s[j] == '.';
    assert s[j + 1..] == tld;
  }

  /** Printable ASCII other than the blank and `@` is in the class. */
  lemma AsciiInClass(s: string)
    requires forall i :: 0 <= i < |s| ==> 0x21 <= s[i] as int <= 0x7E && s[i] != '@'
    ensures AllInClass(s)
  {
  }

  /** The address of the usual shape passes. */
  lemma SimpleEmailAccepted()
    ensures MatchesEmailRegex("a@b.com")
  {
    var s := "a@b.com";
    AsciiInClass("a");
    AsciiInClass("b");
    AsciiInClass("com");
    Compose("a", "b", "com");
    assert "a" + "@" + "b" + "." + "com" == s;
  }

  /** A string without `@` is rejected. */
  lemma NoAtRejected(s: string)
    requires '@' !in s
    ensures !MatchesEmailRegex(s)
  {
    IsValidEmailIff(s);
  }

  /** A string whose domain has no inner dot is rejected. */
  lemma NoInnerDotRejected(s: string, k: nat)
    requires k < |s| && s[k] == '@' && AllInClass(s[..k])
    requires !HasInnerDot(s[k + 1..])
    ensures !MatchesEmailRegex(s)
  {
    RegexAtIsFirstAt(s, k);
    IsValidEmailIff(s);
  }

  /** A blank anywhere in the string rejects it. */
  lemma BlankRejected(s: string, p: nat)
    requires p < |s| && IsJsWhitespace(s[p])
    ensures !MatchesEmailRegex(s)
  {
  }

  /** The regular expression admits exactly one `@`. */
  lemma TwoAtsRejected(s: string, p: nat, q: nat)
    requires p < q < |s| && s[p] == '@' && s[q] == '@'
    ensures !MatchesEmailRegex(s)
  {
  }

  /** No `@`, no dot after it, a dot right after it, a second `@` or a blank all fail. */
  lemma ExampleEmailsRejected()
    ensures !MatchesEmailRegex("ab.com")
    ensures !MatchesEmailRegex("a@bcom")
    ensures !MatchesEmailRegex("a@.com")
    ensures !MatchesEmailRegex("a@b@c.com")
    ensures !MatchesEmailRegex("a b@c.com")
  {
    NoAtRejected("ab.com");
    var s := "a@bcom";
    assert s[2..] == "bcom";
    NoInnerDotRejected(s, 1);
    var t := "a@.com";
    assert t[2..] == ".com";
    NoInnerDotRejected(t, 1);
    TwoAtsRejected("a@b@c.com", 1, 3);
    BlankRejected("a b@c.com", 1);
  }
}
