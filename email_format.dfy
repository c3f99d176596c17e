/**
 * The address check of `signup` (backend/controllers/auth.controller.js:10),
 * the JavaScript regular expression `^[\w-\.]+@([\w-]+\.)+[\w-]{2,4}$`
 * without flags. `\w` is the ASCII class `[A-Za-z0-9_]`; in `[\w-\.]` a
 * class escape cannot bound a range, so the `-` is a literal and the class
 * is `[A-Za-z0-9_.-]`.
 *
 * `IsValidEmail` decides the check by scanning; `MatchesEmailPattern`
 * restates the expression as a decomposition of the string into its parts;
 * `ValidEmailMatchesPattern` proves the two agree on every string.
 */
module EmailFormat {
  import opened Wrappers

  /** `\w` */
  predicate IsWordChar(c: char) {
    'A' <= c <= 'Z' || 'a' <= c <= 'z' || '0' <= c <= '9' || c == '_'
  }

  /** `[\w-\.]`, the characters of the part before the `@`. */
  predicate IsLocalChar(c: char) {
    IsWordChar(c) || c == '-' || c == '.'
  }

  /** `[\w-]`, the characters of a domain label. */
  predicate IsLabelChar(c: char) {
    IsWordChar(c) || c == '-'
  }

  predicate AllLocalChars(s: string) {
    forall i :: 0 <= i < |s| ==> IsLocalChar(s[i])
  }

  predicate AllLabelChars(s: string) {
    forall i :: 0 <= i < |s| ==> IsLabelChar(s[i])
  }

  /** The position of the first `c` in `s`. */
  function IndexOf(s: string, c: char): (r: Option<nat>)
    ensures r.None? <==> c !in s
    ensures r.Some? ==> r.value < |s| && s[r.value] == c && c !in s[..r.value]
  {
    if s == [] then None
    else if s[0] == c then Some(0)
    else match IndexOf(s[1..], c)
      case None => None
      case Some(k) => assert s[..k + 1] == [s[0]] + s[1..][..k]; Some(k + 1)
  }

  /** `[\w-]{2,4}` at the end of the address. */
  predicate IsLastLabel(s: string) {
    2 <= |s| <= 4 && AllLabelChars(s)
  }

  /**
   * `([\w-]+\.)+[\w-]{2,4}` read from the left: a non-empty label and a dot,
   * followed either by the last label or by another such domain.
   */
  predicate IsDomain(d: string)
    decreases |d|
  {
    match IndexOf(d, '.')
    case None => false
    case Some(j) => 1 <= j && AllLabelChars(d[..j]) && (IsLastLabel(d[j + 1..]) || IsDomain(d[j + 1..]))
  }

  /** The check on line 10: no local character is `@`, so the address splits at its first `@`. */
  predicate IsValidEmail(s: string) {
    match IndexOf(s, '@')
    case None => false
    case Some(k) => 1 <= k && AllLocalChars(s[..k]) && IsDomain(s[k + 1..])
  }

  // ----- the expression as a decomposition -----

  /** `label1.label2. ... labelN.` */
  function Dotted(labels: seq<string>): (r: string)
    ensures labels == [] ==> r == []
  {
    if labels == [] then [] else labels[0] + "." + Dotted(labels[1..])
  }

  /** Every element is a non-empty run of `[\w-]`. */
  ghost predicate AllLabels(labels: seq<string>) {
    forall i :: 0 <= i < |labels| ==> |labels[i]| >= 1 && AllLabelChars(labels[i])
  }

  /** `([\w-]+\.)+` needs at least one label. */
  ghost predicate AreLabels(labels: seq<string>) {
    |labels| >= 1 && AllLabels(labels)
  }

  ghost predicate DomainParts(d: string, labels: seq<string>, last: string) {
    AreLabels(labels) && IsLastLabel(last) && d == Dotted(labels) + last
  }

  ghost predicate EmailParts(s: string, local: string, labels: seq<string>, last: string) {
    |local| >= 1 && AllLocalChars(local) && AreLabels(labels) && IsLastLabel(last) &&
    s == local + "@" + Dotted(labels) + last
  }

  /** The string matches `^[\w-\.]+@([\w-]+\.)+[\w-]{2,4}$`. */
  ghost predicate MatchesEmailPattern(s: string) {
    exists local, labels, last :: EmailParts(s, local, labels, last)
  }

  /** When `a` holds no `c`, the first `c` of `a + [c] + b` is the one after `a`. */
  lemma IndexOfAfterPrefix(a: string, c: char, b: string)
    requires c !in a
    ensures IndexOf(a + [c] + b, c) == Some(|a|)
  {
    var s := a + [c] + b;
    assert s[|a|] == c;
    assert s[..|a|] == a;
  }

  lemma {:induction false} DomainFromParts(d: string, labels: seq<string>, last: string)
    requires DomainParts(d, labels, last)
    ensures IsDomain(d)
    decreases |labels|
  {
    var first, more := labels[0], labels[1..];
    var rest := Dotted(more) + last;
    assert d == first + "." + rest;
    if |labels| == 1 {
      assert rest == last;
    } else {
      assert forall i :: 0 <= i < |more| ==> more[i] == labels[i + 1];
      DomainFromParts(rest, more, last);
    }
    DomainFromStep(d, first, rest);
  }

  /** The converse of `DomainStep`: a label, a dot and a domain or last label make a domain. */
  lemma DomainFromStep(d: string, first: string, rest: string)
    requires |first| >= 1 && AllLabelChars(first) && d == first + "." + rest
    requires IsLastLabel(rest) || IsDomain(rest)
    ensures IsDomain(d)
  {
    assert '.' !in first by {
      forall i | 0 <= i < |first| ensures first[i] != '.' {
        assert IsLabelChar(first[i]);
      }
    }
    assert d == first + ['.'] + rest;
    IndexOfAfterPrefix(first, '.', rest);
    assert d[..|first|] == first;
    assert d[|first| + 1..] == rest;
  }

  /** Prepending a label to a list of labels. */
  lemma ConsLabels(first: string, more: seq<string>, last: string)
    requires |first| >= 1 && AllLabelChars(first) && AllLabels(more)
    ensures AreLabels([first] + more)
    ensures Dotted([first] + more) + last == first + "." + (Dotted(more) + last)
  {
    var labels := [first] + more;
    assert labels[1..] == more;
    forall i | 0 <= i < |labels| ensures |labels[i]| >= 1 && AllLabelChars(labels[i]) {
      if i > 0 {
        assert labels[i] == more[i - 1];
      }
    }
  }

  /** What one step of `IsDomain` establishes: the first label, its dot and the rest. */
  lemma DomainStep(d: string) returns (first: string, rest: string)
    requires IsDomain(d)
    ensures |first| >= 1 && AllLabelChars(first) && d == first + "." + rest && |rest| < |d|
    ensures IsLastLabel(rest) || IsDomain(rest)
  {
    var j := IndexOf(d, '.').value;
    first, rest := d[..j], d[j + 1..];
    assert d == first + [d[j]] + rest;
  }

  lemma {:induction false} PartsFromDomain(d: string) returns (labels: seq<string>, last: string)
    requires IsDomain(d)
    ensures DomainParts(d, labels, last)
    decreases |d|
  {
    var first, rest := DomainStep(d);
    var more;
    if IsLastLabel(rest) {
      more, last := [], rest;
    } else {
      more, last := PartsFromDomain(rest);
    }
    labels := [first] + more;
    ConsLabels(first, more, last);
  }

  /** What `IsValidEmail` establishes: the local part, the `@` and a domain. */
  lemma EmailSplit(s: string) returns (local: string, domain: string)
    requires IsValidEmail(s)
    ensures |local| >= 1 && AllLocalChars(local) && IsDomain(domain) && s == local + "@" + domain
  {
    var k := IndexOf(s, '@').value;
    local, domain := s[..k], s[k + 1..];
    assert s == local + [s[k]] + domain;
  }

  /** Every address the scanning check accepts matches the expression. */
  lemma ValidEmailIsPattern(s: string)
    requires IsValidEmail(s)
    ensures MatchesEmailPattern(s)
  {
    var local, domain := EmailSplit(s);
    var labels, last := PartsFromDomain(domain);
    assert EmailParts(s, local, labels, last);
  }

  /** Every address the expression matches passes the scanning check. */
  lemma PatternIsValidEmail(s: string, local: string, labels: seq<string>, last: string)
    requires EmailParts(s, local, labels, last)
    ensures IsValidEmail(s)
  {
    var domain := Dotted(labels) + last;
    assert s == local + ['@'] + domain;
    assert '@' !in local by {
      forall i | 0 <= i < |local| ensures local[i] != '@' {
        assert IsLocalChar(local[i]);
      }
    }
    IndexOfAfterPrefix(local, '@', domain);
    assert s[..|local|] == local;
    assert s[|local| + 1..] == domain;
    DomainFromParts(domain, labels, last);
  }

  /** The scanning check accepts exactly the strings the regular expression matches. */
  lemma ValidEmailMatchesPattern(s: string)
    ensures IsValidEmail(s) <==> MatchesEmailPattern(s)
  {
    if IsValidEmail(s) {
      ValidEmailIsPattern(s);
    }
    if MatchesEmailPattern(s) {
      var local, labels, last :| EmailParts(s, local, labels, last);
      PatternIsValidEmail(s, local, labels, last);
    }
  }
}
