/**
 * The e-mail recognizer of the submission controller (`isEmail`): a PCRE pattern,
 * case-insensitive, anchored by `^` and `$`, that accepts
 *
 *   local-part "@" ( (label ".")+ tld  |  (octet "."){3} octet )
 *
 * where the local part is over `[-_.[:alnum:]]`, a label is one alnum character or
 * alnum [alnum -]* alnum, the top-level domain comes from a fixed list, and an octet
 * is a decimal number of one to three digits no greater than 255. Without the `D`
 * modifier, PCRE's `$` also matches just before a final newline, so a subject that is
 * a match followed by one "\n" is accepted too.
 *
 * `IsEmail` is the recognizer written as a computation (cut at the first `@`, split
 * the domain at dots); `MatchesPattern` is the pattern written as concatenations with
 * existential witnesses; `IsEmailMatchesPattern` proves them equal.
 */
module Email {
  import opened PhpStrings

  /**
   * The two-letter top-level domains the pattern lists: `b` follows `a` in one of them.
   * Each initial maps to the second letters listed under it, in the pattern's order.
   */
  predicate IsTwoLetterTld(a: char, b: char) {
    match a
    case 'a' => b in {
      'd', 'e', 'f', 'g', 'i', 'l', 'm', 'n',
      'o', 'q', 'r', 's', 't', 'u', 'w', 'z'
    }
    case 'b' => b in {
      'a', 'b', 'd', 'e', 'f', 'g', 'h', 'i', 'j', 'm',
      'n', 'o', 'r', 's', 't', 'v', 'w', 'y', 'z'
    }
    case 'c' => b in {
      'a', 'c', 'd', 'f', 'g', 'h', 'i', 'k', 'l', 'm',
      'n', 'o', 'r', 's', 'u', 'v', 'x', 'y', 'z'
    }
    case 'd' => b in {'e', 'j', 'k', 'm', 'o', 'z'}
    case 'e' => b in {'c', 'e', 'g', 'h', 'r', 's', 't', 'u'}
    case 'f' => b in {'i', 'j', 'k', 'm', 'o', 'r'}
    case 'g' => b in {
      'a', 'b', 'd', 'e', 'f', 'h', 'i', 'l', 'm',
      'n', 'p', 'q', 'r', 's', 't', 'u', 'w', 'y'
    }
    case 'h' => b in {'k', 'm', 'n', 'r', 't', 'u'}
    case 'i' => b in {'d', 'e', 'l', 'n', 'o', 'q', 'r', 's', 't'}
    case 'j' => b in {'m', 'o', 'p'}
    case 'k' => b in {'e', 'g', 'h', 'i', 'm', 'n', 'p', 'r', 'w', 'y', 'z'}
    case 'l' => b in {'a', 'b', 'c', 'i', 'k', 'r', 's', 't', 'u', 'v', 'y'}
    case 'm' => b in {
      'a', 'c', 'd', 'g', 'h', 'k', 'l', 'm', 'n', 'o', 'p',
      'q', 'r', 's', 't', 'u', 'v', 'w', 'x', 'y', 'z'
    }
    case 'n' => b in {'a', 'c', 'e', 'f', 'g', 'i', 'l', 'o', 'p', 'r', 't', 'u', 'z'}
    case 'o' => b in {'m'}
    case 'p' => b in {'a', 'e', 'f', 'g', 'h', 'k', 'l', 'm', 'n', 'r', 's', 't', 'w', 'y'}
    case 'q' => b in {'a'}
    case 'r' => b in {'e', 'o', 'u', 'w'}
    case 's' => b in {
      'a', 'b', 'c', 'd', 'e', 'g', 'h', 'i', 'j', 'k',
      'l', 'm', 'n', 'o', 'r', 't', 'u', 'v', 'y', 'z'
    }
    case 't' => b in {
      'c', 'd', 'f', 'g', 'h', 'j', 'k', 'm',
      'n', 'o', 'p', 'r', 't', 'v', 'w', 'z'
    }
    case 'u' => b in {'a', 'g', 'k', 'm', 's', 'y', 'z'}
    case 'v' => b in {'a', 'c', 'e', 'g', 'i', 'n', 'u'}
    case 'w' => b in {'f', 's'}
    case 'y' => b in {'e', 't', 'u'}
    case 'z' => b in {'a', 'm', 'w'}
    case _ => false
  }

  /** The longer top-level domains the pattern lists, in its order. */
  predicate IsLongTld(w: string) {
    || w == "aero" || w == "arpa" || w == "biz" || w == "com" || w == "coop"
    || w == "edu" || w == "gov" || w == "info" || w == "int" || w == "mil"
    || w == "museum" || w == "name" || w == "net" || w == "org" || w == "pro"
  }

  predicate IsLocalChar(c: char) { c == '-' || c == '_' || c == '.' || IsAlnum(c) }

  /** `[-_.[:alnum:]]+` */
  predicate IsLocalPart(s: string) { |s| >= 1 && AllChars(s, IsLocalChar) }

  /** `[[:alnum:]]|[[:alnum:]][[:alnum:]-]*[[:alnum:]]` */
  predicate IsLabel(s: string) {
    && |s| >= 1
    && IsAlnum(s[0])
    && IsAlnum(s[|s| - 1])
    && forall i :: 0 < i < |s| - 1 ==> IsAlnum(s[i]) || s[i] == '-'
  }

  /** One of the listed top-level domains, compared case-insensitively. */
  predicate IsTld(s: string) {
    var l := Lower(s);
    (|l| == 2 && IsTwoLetterTld(l[0], l[1])) || IsLongTld(l)
  }

  /** `[0-9][0-9]?|[0-1][0-9][0-9]|[2][0-4][0-9]|[2][5][0-5]` */
  predicate IsOctet(o: string) {
    || (|o| == 1 && IsDigit(o[0]))
    || (|o| == 2 && IsDigit(o[0]) && IsDigit(o[1]))
    || (|o| == 3 && '0' <= o[0] <= '1' && IsDigit(o[1]) && IsDigit(o[2]))
    || (|o| == 3 && o[0] == '2' && '0' <= o[1] <= '4' && IsDigit(o[2]))
    || (|o| == 3 && o[0] == '2' && o[1] == '5' && '0' <= o[2] <= '5')
  }

  /** The domain alternative: dot-separated labels followed by a listed top-level domain. */
  predicate IsDomainName(d: string) {
    var parts := Split(d, '.');
    && |parts| >= 2
    && (forall k :: 0 <= k < |parts| - 1 ==> IsLabel(parts[k]))
    && IsTld(parts[|parts| - 1])
  }

  /** The address alternative: exactly four dot-separated octets. */
  predicate IsIpv4(d: string) {
    var parts := Split(d, '.');
    |parts| == 4 && forall k :: 0 <= k < 4 ==> IsOctet(parts[k])
  }

  predicate IsEmailBody(s: string) {
    var at := IndexOf(s, '@');
    at < |s| && IsLocalPart(s[..at]) && (IsDomainName(s[at + 1..]) || IsIpv4(s[at + 1..]))
  }

  /** `isEmail`: the pattern matches the whole subject, or all of it but a final "\n". */
  predicate IsEmail(s: string) {
    || IsEmailBody(s)
    || (|s| >= 1 && s[|s| - 1] == '\n' && IsEmailBody(s[..|s| - 1]))
  }

  // ---------------------------------------------------------------------------
  // The pattern as concatenations

  /** `(label\.)+` for the given labels. */
  function Dotted(labels: seq<string>): string {
    if labels == [] then "" else labels[0] + "." + Dotted(labels[1..])
  }

  ghost predicate DomainAlternative(d: string, labels: seq<string>, tld: string) {
    && |labels| >= 1
    && (forall k :: 0 <= k < |labels| ==> IsLabel(labels[k]))
    && IsTld(tld)
    && d == Dotted(labels) + tld
  }

  ghost predicate Ipv4Alternative(d: string, octets: seq<string>) {
    && |octets| == 4
    && (forall k :: 0 <= k < 4 ==> IsOctet(octets[k]))
    && d == octets[0] + "." + octets[1] + "." + octets[2] + "." + octets[3]
  }

  ghost predicate MatchesDomain(d: string) {
    exists labels, tld :: DomainAlternative(d, labels, tld)
  }

  ghost predicate MatchesIpv4(d: string) {
    exists octets :: Ipv4Alternative(d, octets)
  }

  /** `b` is `local "@" domain` with each part matching its sub-pattern. */
  ghost predicate BodySplit(b: string, local: string, domain: string) {
    && IsLocalPart(local)
    && (MatchesDomain(domain) || MatchesIpv4(domain))
    && b == local + "@" + domain
  }

  ghost predicate MatchesBody(b: string) {
    exists local, domain :: BodySplit(b, local, domain)
  }

  /** The anchored pattern matches `s`, or `s` without its final "\n". */
  ghost predicate MatchesPattern(s: string) {
    || MatchesBody(s)
    || (|s| >= 1 && s[|s| - 1] == '\n' && MatchesBody(s[..|s| - 1]))
  }

  // ---------------------------------------------------------------------------
  // Lemmas

  predicate IsLowerWord(x: string) { forall i :: 0 <= i < |x| ==> 'a' <= x[i] <= 'z' }

  lemma TwoLetterTldLetters(a: char, b: char)
    requires IsTwoLetterTld(a, b)
    ensures 'a' <= a <= 'z' && 'a' <= b <= 'z'
  {
  }

  lemma LongTldLetters(w: string)
    requires IsLongTld(w)
    ensures IsLowerWord(w)
  {
  }

  /** A listed top-level domain is made of ASCII letters only (so holds no `.`, `@` or space). */
  lemma TldLetters(t: string)
    requires IsTld(t)
    ensures AllChars(t, IsAsciiLetter)
  {
    var l := Lower(t);
    if |l| == 2 && IsTwoLetterTld(l[0], l[1]) {
      TwoLetterTldLetters(l[0], l[1]);
    } else {
      LongTldLetters(l);
    }
    assert IsLowerWord(l);
    forall i | 0 <= i < |t| ensures IsAsciiLetter(t[i]) {
      assert 'a' <= l[i] <= 'z';
    }
  }

  /** An octet in the pattern's four alternatives is exactly one to three digits of value at most 255. */
  lemma OctetValue(o: string)
    ensures IsOctet(o) <==> 1 <= |o| <= 3 && AllDigits(o) && DecimalValue(o) <= 255
  {
    if 1 <= |o| <= 3 && AllDigits(o) {
      var v0 := DigitValue(o[0]);
      assert DecimalValue(o[..1]) == v0 by {
        assert o[..1][..0] == [];
      }
      if |o| >= 2 {
        assert o[..2][..1] == o[..1];
        assert DecimalValue(o[..2]) == 10 * v0 + DigitValue(o[1]);
      }
      if |o| == 2 {
        assert o[..2] == o;
      }
      if |o| == 3 {
        assert o[..3] == o;
        assert DecimalValue(o) == 100 * v0 + 10 * DigitValue(o[1]) + DigitValue(o[2]);
      }
      if |o| == 1 {
        assert o[..1] == o;
      }
    }
  }

  /** Characters a domain of either alternative can hold. */
  predicate IsHostChar(c: char) { IsAlnum(c) || c == '-' || c == '.' }

  lemma {:induction false} DottedJoin(labels: seq<string>, tld: string)
    ensures Dotted(labels) + tld == Join(labels + [tld], '.')
    decreases |labels|
  {
    if labels == [] {
      assert labels + [tld] == [tld];
    } else {
      DottedJoin(labels[1..], tld);
      assert (labels + [tld])[1..] == labels[1..] + [tld];
    }
  }

  lemma IndexOfAfter(local: string, c: char, rest: string)
    requires c !in local
    ensures IndexOf(local + [c] + rest, c) == |local|
  {
    var s := local + [c] + rest;
    assert s[|local|] == c;
    assert forall j :: 0 <= j < |local| ==> s[j] == local[j];
  }

  lemma LabelHasNoDot(l: string)
    requires IsLabel(l)
    ensures AllChars(l, IsHostChar) && '.' !in l
  {
    assert forall i :: 0 <= i < |l| ==> l[i] != '.' && IsHostChar(l[i]);
  }

  lemma OctetHasNoDot(o: string)
    requires IsOctet(o)
    ensures AllChars(o, IsHostChar) && '.' !in o
  {
    assert forall i :: 0 <= i < |o| ==> IsDigit(o[i]);
  }

  lemma TldHasNoDot(t: string)
    requires IsTld(t)
    ensures AllChars(t, IsHostChar) && '.' !in t
  {
    TldLetters(t);
    assert forall i :: 0 <= i < |t| ==> IsAsciiLetter(t[i]);
  }

  lemma DomainNameToPattern(d: string)
    requires IsDomainName(d)
    ensures MatchesDomain(d)
  {
    var parts := Split(d, '.');
    var labels, tld := parts[..|parts| - 1], parts[|parts| - 1];
    assert labels + [tld] == parts;
    DottedJoin(labels, tld);
    assert DomainAlternative(d, labels, tld);
  }

  lemma PatternToDomainName(d: string, labels: seq<string>, tld: string)
    requires DomainAlternative(d, labels, tld)
    ensures IsDomainName(d)
  {
    var parts := labels + [tld];
    DottedJoin(labels, tld);
    forall k | 0 <= k < |parts| ensures '.' !in parts[k] {
      if k < |labels| { LabelHasNoDot(parts[k]); } else { TldHasNoDot(tld); }
    }
    SplitJoin(parts, '.');
    assert Split(d, '.') == parts;
    assert parts[..|parts| - 1] == labels;
  }

  /** The domain alternative, computed by splitting at dots, is the pattern `(label\.)+tld`. */
  lemma DomainNameMatches(d: string)
    ensures IsDomainName(d) <==> MatchesDomain(d)
  {
    if IsDomainName(d) {
      DomainNameToPattern(d);
    }
    if MatchesDomain(d) {
      var labels, tld :| DomainAlternative(d, labels, tld);
      PatternToDomainName(d, labels, tld);
    }
  }

  lemma JoinFour(parts: seq<string>)
    requires |parts| == 4
    ensures Join(parts, '.') == parts[0] + "." + parts[1] + "." + parts[2] + "." + parts[3]
  {
    var p1, p2 := parts[1..], parts[1..][1..];
    assert p2[1..] == [parts[3]];
    assert Join(p2, '.') == parts[2] + "." + parts[3];
    assert Join(p1, '.') == parts[1] + "." + Join(p2, '.');
  }

  /** The address alternative, computed by splitting at dots, is the pattern `(octet\.){3}octet`. */
  lemma Ipv4Matches(d: string)
    ensures IsIpv4(d) <==> MatchesIpv4(d)
  {
    if IsIpv4(d) {
      var parts := Split(d, '.');
      JoinFour(parts);
      assert Ipv4Alternative(d, parts);
    }
    if MatchesIpv4(d) {
      var octets :| Ipv4Alternative(d, octets);
      JoinFour(octets);
      forall k | 0 <= k < 4 ensures '.' !in octets[k] { OctetHasNoDot(octets[k]); }
      SplitJoin(octets, '.');
    }
  }

  lemma BodyMatches(b: string, local: string, domain: string)
    requires IsLocalPart(local) && b == local + "@" + domain
    ensures IsEmailBody(b) <==> IsDomainName(domain) || IsIpv4(domain)
  {
    assert '@' !in local by {
      assert forall i :: 0 <= i < |local| ==> IsLocalChar(local[i]);
    }
    IndexOfAfter(local, '@', domain);
    assert b[..|local|] == local;
    assert b[|local| + 1..] == domain;
  }

  lemma BodyMatchesPattern(b: string)
    ensures IsEmailBody(b) <==> MatchesBody(b)
  {
    if IsEmailBody(b) {
      var at := IndexOf(b, '@');
      var local, domain := b[..at], b[at + 1..];
      assert b == local + "@" + domain;
      DomainNameMatches(domain);
      Ipv4Matches(domain);
      assert BodySplit(b, local, domain);
    }
    if MatchesBody(b) {
      var local, domain :| BodySplit(b, local, domain);
      DomainNameMatches(domain);
      Ipv4Matches(domain);
      BodyMatches(b, local, domain);
    }
  }

  /** The recognizer accepts exactly the subjects the anchored pattern matches. */
  lemma IsEmailMatchesPattern(s: string)
    ensures IsEmail(s) <==> MatchesPattern(s)
  {
    BodyMatchesPattern(s);
    if |s| >= 1 {
      BodyMatchesPattern(s[..|s| - 1]);
    }
  }

  /** Every character of a domain of either alternative is alphanumeric, `-` or `.`. */
  lemma DomainChars(d: string)
    requires IsDomainName(d) || IsIpv4(d)
    ensures AllChars(d, IsHostChar)
  {
    var parts := Split(d, '.');
    forall k | 0 <= k < |parts| ensures AllChars(parts[k], IsHostChar) {
      if IsDomainName(d) {
        if k < |parts| - 1 { LabelHasNoDot(parts[k]); } else { TldHasNoDot(parts[k]); }
      } else {
        OctetHasNoDot(parts[k]);
      }
    }
    JoinAllChars(parts, '.', IsHostChar);
  }

  lemma Excludes(s: string, p: char -> bool, c: char)
    requires AllChars(s, p) && !p(c)
    ensures c !in s
  {
    forall i | 0 <= i < |s|
      ensures s[i] != c
    {
      assert p(s[i]);
    }
  }

  lemma OccursOnce(local: string, c: char, domain: string)
    requires c !in local && c !in domain
    ensures multiset(local + [c] + domain)[c] == 1
  {
    assert multiset(local + [c] + domain) == multiset(local) + multiset{c} + multiset(domain);
  }

  /** What the shape argument needs from an accepted body: where `@` is and which characters surround it. */
  lemma BodyLayout(b: string) returns (at: nat)
    requires IsEmailBody(b)
    ensures at == IndexOf(b, '@') && at < |b| && b[at] == '@'
    ensures IsLocalPart(b[..at]) && AllChars(b[at + 1..], IsHostChar)
  {
    at := IndexOf(b, '@');
    DomainChars(b[at + 1..]);
  }

  lemma LayoutShape(s: string, at: nat, tail: string)
    requires at < |s| && s[at] == '@'
    requires IsLocalPart(s[..at])
    requires s[at + 1..] == tail || s[at + 1..] == tail + "\n"
    requires AllChars(tail, IsHostChar)
    ensures multiset(s)['@'] == 1
    ensures IndexOf(s, '@') == at
    ensures ' ' !in s
  {
    var local, rest := s[..at], s[at + 1..];
    assert s == local + "@" + rest;
    Excludes(local, IsLocalChar, '@');
    Excludes(tail, IsHostChar, '@');
    Excludes(local, IsLocalChar, ' ');
    Excludes(tail, IsHostChar, ' ');
    assert '@' !in rest && ' ' !in rest by {
      if rest != tail {
        assert rest == tail + "\n";
      }
    }
    OccursOnce(local, '@', rest);
    IndexOfAfter(local, '@', rest);
  }

  lemma BodyShape(s: string)
    requires IsEmailBody(s)
    ensures multiset(s)['@'] == 1
    ensures IsLocalPart(s[..IndexOf(s, '@')])
    ensures ' ' !in s
  {
    var at := BodyLayout(s);
    LayoutShape(s, at, s[at + 1..]);
  }

  lemma FinalNewline(s: string)
    requires |s| >= 1 && s[|s| - 1] == '\n'
    ensures s == s[..|s| - 1] + "\n"
  {
  }

  lemma NewlineLayout(s: string, b: string, at: nat)
    requires s == b + "\n"
    requires at < |b| && b[at] == '@'
    requires IsLocalPart(b[..at]) && AllChars(b[at + 1..], IsHostChar)
    ensures multiset(s)['@'] == 1
    ensures IsLocalPart(s[..IndexOf(s, '@')])
    ensures ' ' !in s
  {
    assert s[..at] == b[..at];
    assert s[at + 1..] == b[at + 1..] + "\n";
    LayoutShape(s, at, b[at + 1..]);
  }

  lemma NewlineBodyShape(s: string)
    requires |s| >= 1 && s[|s| - 1] == '\n' && IsEmailBody(s[..|s| - 1])
    ensures multiset(s)['@'] == 1
    ensures IsLocalPart(s[..IndexOf(s, '@')])
    ensures ' ' !in s
  {
    var b := s[..|s| - 1];
    FinalNewline(s);
    var at := BodyLayout(b);
    NewlineLayout(s, b, at);
  }

  /**
   * An accepted subject holds exactly one `@`, what precedes it is a non-empty run of
   * ASCII letters, digits, `-`, `_` and `.`, and it holds no space.
   */
  lemma EmailShape(s: string)
    requires IsEmail(s)
    ensures multiset(s)['@'] == 1
    ensures IsLocalPart(s[..IndexOf(s, '@')])
    ensures ' ' !in s
  {
    if IsEmailBody(s) {
      BodyShape(s);
    } else {
      NewlineBodyShape(s);
    }
  }

  lemma RejectsWithoutAt(s: string)
    requires '@' !in s
    ensures !IsEmail(s)
  {
    if IsEmail(s) {
      EmailShape(s);
    }
  }

  lemma RejectsWithSpace(s: string)
    requires ' ' in s
    ensures !IsEmail(s)
  {
    if IsEmail(s) {
      EmailShape(s);
    }
  }

  // Examples. Each subject is a parameter fixed by the requires clause, which keeps
  // the verifier from evaluating the recognizer on the literal.

  lemma RejectsInvalidEmail(s: string)
    requires s == "invalid email"
    ensures !IsEmail(s)
  {
    assert s[7] == ' ';
    RejectsWithSpace(s);
  }

  lemma RejectsInvalidemail(s: string)
    requires s == "invalidemail"
    ensures !IsEmail(s)
  {
    assert forall i :: 0 <= i < |s| ==> s[i] != '@';
    RejectsWithoutAt(s);
  }

  /** A body built from an accepted local part, at least one label and a listed TLD is accepted. */
  lemma AcceptsDomainBody(b: string, local: string, labels: seq<string>, tld: string)
    requires IsLocalPart(local) && |labels| >= 1
    requires forall k :: 0 <= k < |labels| ==> IsLabel(labels[k])
    requires IsTld(tld)
    requires b == local + "@" + (Dotted(labels) + tld)
    ensures IsEmailBody(b)
  {
    var domain := Dotted(labels) + tld;
    PatternToDomainName(domain, labels, tld);
    BodyMatches(b, local, domain);
  }

  /** A body built from an accepted local part and four dotted octets is accepted. */
  lemma AcceptsIpv4Body(b: string, local: string, o0: string, o1: string, o2: string, o3: string)
    requires IsLocalPart(local)
    requires IsOctet(o0) && IsOctet(o1) && IsOctet(o2) && IsOctet(o3)
    requires b == local + "@" + (o0 + "." + o1 + "." + o2 + "." + o3)
    ensures IsEmailBody(b)
  {
    var domain := o0 + "." + o1 + "." + o2 + "." + o3;
    var octets := [o0, o1, o2, o3];
    assert Ipv4Alternative(domain, octets);
    assert BodySplit(b, local, domain);
    BodyMatchesPattern(b);
  }

  /** An accepted body followed by one newline is accepted. */
  lemma AcceptsBodyWithNewline(s: string, b: string)
    requires IsEmailBody(b) && s == b + "\n"
    ensures IsEmail(s)
  {
    assert s[..|s| - 1] == b;
  }

  lemma ComIsTld()
    ensures IsTld("com") && IsTld("COM")
  {
    assert Lower("com") == "com" && Lower("COM") == "com";
  }

  lemma CoIsTld()
    ensures IsTld("co")
  {
    assert Lower("co") == "co";
    assert IsTwoLetterTld('c', 'o');
  }

  lemma AcceptsPlainAddress(s: string)
    requires s == "julie.waltispurger@example.com"
    ensures IsEmail(s)
  {
    assert IsLocalPart("julie.waltispurger") && IsLabel("example");
    ComIsTld();
    assert s == "julie.waltispurger" + "@" + (Dotted(["example"]) + "com");
    AcceptsDomainBody(s, "julie.waltispurger", ["example"], "com");
  }

  lemma AcceptsUpperCaseTld(s: string)
    requires s == "julie@example.COM"
    ensures IsEmail(s)
  {
    assert IsLocalPart("julie") && IsLabel("example");
    ComIsTld();
    assert s == "julie" + "@" + (Dotted(["example"]) + "COM");
    AcceptsDomainBody(s, "julie", ["example"], "COM");
  }

  lemma DottedPair(a: string, b: string)
    ensures Dotted([a, b]) == a + "." + b + "."
  {
    assert [a, b][1..] == [b] && [b][1..] == [];
    assert Dotted([b]) == b + "." + Dotted([]);
  }

  lemma SubdomainParts()
    ensures IsLocalPart("user") && IsLabel("sub") && IsLabel("example")
  {
  }

  lemma AcceptsSubdomainAddress(s: string)
    requires s == "user@sub.example.co"
    ensures IsEmail(s)
  {
    var labels := ["sub", "example"];
    SubdomainParts();
    CoIsTld();
    DottedPair("sub", "example");
    assert s == "user" + "@" + (Dotted(labels) + "co");
    AcceptsDomainBody(s, "user", labels, "co");
  }

  lemma AcceptsIpv4Address(s: string)
    requires s == "admin@192.168.0.1"
    ensures IsEmail(s)
  {
    assert IsLocalPart("admin");
    assert IsOctet("192") && IsOctet("168") && IsOctet("0") && IsOctet("1");
    assert s == "admin" + "@" + ("192" + "." + "168" + "." + "0" + "." + "1");
    AcceptsIpv4Body(s, "admin", "192", "168", "0", "1");
  }

  lemma ShortAddressBody(b: string)
    requires b == "julie@example.com"
    ensures IsEmailBody(b)
  {
    assert IsLocalPart("julie") && IsLabel("example");
    ComIsTld();
    assert b == "julie" + "@" + (Dotted(["example"]) + "com");
    AcceptsDomainBody(b, "julie", ["example"], "com");
  }

  /** PCRE's `$` matches before a final newline, so one trailing "\n" is accepted. */
  lemma AcceptsTrailingNewline(s: string)
    requires s == "julie@example.com" + "\n"
    ensures IsEmail(s)
  {
    var b := "julie@example.com";
    ShortAddressBody(b);
    AcceptsBodyWithNewline(s, b);
  }
}
