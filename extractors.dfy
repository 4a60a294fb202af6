/** The phone, email and IP scanners of the backend (`Extractors`).

    The regex engine's search (leftmost-first, non-overlapping, with
    backtracking) is not modelled. Each extractor receives the matches the
    engine reported, and each regular expression becomes a predicate that says
    which matches it can report: the pieces of the match have the regex's
    shape, the match occurs in the scanned text at its offset, and `\b` holds
    on both sides of it. */
module Extractors {
  import opened Text

  // ---------------------------------------------------------------------------
  // Positions in the scanned text

  /** `\b` before position `i`: exactly one of its two neighbours is a word
      character. The regex crate's `\w` is Unicode-aware and agrees with
      `IsWordChar` on ASCII; its Unicode tables are not written out, so next
      to a non-ASCII character a boundary is admitted either way. Every
      boundary the engine sees is then admitted, and between ASCII
      neighbours the predicate is exact. */
  predicate IsBoundary(text: string, i: nat)
    requires i <= |text|
  {
    || (i > 0 && !IsAscii(text[i - 1]))
    || (i < |text| && !IsAscii(text[i]))
    || (i > 0 && IsWordChar(text[i - 1])) != (i < |text| && IsWordChar(text[i]))
  }

  /** `s` occurs in `text` at `start` with a word boundary on each side. */
  predicate DelimitedAt(text: string, start: nat, s: string)
  {
    && start + |s| <= |text|
    && text[start..start + |s|] == s
    && IsBoundary(text, start)
    && IsBoundary(text, start + |s|)
  }

  // ---------------------------------------------------------------------------
  // Phone numbers

  /** `[-.\s]` */
  predicate IsSeparator(c: char) { c == '-' || c == '.' || RustWhitespace(c) }

  /** `[-.\s]?` */
  predicate OptSeparator(s: string) { |s| == 0 || (|s| == 1 && IsSeparator(s[0])) }

  /** `([0-9]{n})` */
  predicate DigitGroup(s: string, n: nat) { |s| == n && AllDigits(s) }

  /** A match of one of the phone regexes, cut into its pieces. The three
      digit groups are the regex's capture groups; the other pieces are the
      uncaptured optional parts around them. */
  datatype PhoneMatch = PhoneMatch(
    start: nat, lead: string, area: string, close: string,
    sep1: string, exchange: string, sep2: string, line: string)
  {
    function Text(): string { lead + area + close + sep1 + exchange + sep2 + line }

    /** Capture groups 1 to 3, in order. */
    function Groups(): seq<string> { [area, exchange, line] }
  }

  /** `1?[-.\s]?\(?`: the three optional parts come from disjoint character
      classes, so reading them greedily decides membership. */
  predicate Form1Lead(s: string)
  {
    var a := if 0 < |s| && s[0] == '1' then 1 else 0;
    var b := if a < |s| && IsSeparator(s[a]) then a + 1 else a;
    var c := if b < |s| && s[b] == '(' then b + 1 else b;
    c == |s|
  }

  predicate GroupsShaped(m: PhoneMatch)
  {
    DigitGroup(m.area, 3) && DigitGroup(m.exchange, 3) && DigitGroup(m.line, 4)
  }

  /** First regex: `1?[-.\s]?\(?(ddd)\)?[-.\s]?(ddd)[-.\s]?(dddd)`. */
  predicate Form1(m: PhoneMatch)
  {
    Form1Lead(m.lead) && (m.close == "" || m.close == ")") && OptSeparator(m.sep1) && OptSeparator(m.sep2)
  }

  /** Second regex: `1?(ddd)(ddd)(dddd)`. */
  predicate Form2(m: PhoneMatch)
  {
    (m.lead == "" || m.lead == "1") && m.close == "" && m.sep1 == "" && m.sep2 == ""
  }

  /** Third regex: `(ddd)[-.\s](ddd)[-.\s](dddd)`. */
  predicate Form3(m: PhoneMatch)
  {
    && m.lead == "" && m.close == ""
    && |m.sep1| == 1 && IsSeparator(m.sep1[0])
    && |m.sep2| == 1 && IsSeparator(m.sep2[0])
  }

  /** `m` is a match that the phone regex number `form` (0, 1 or 2) can report in `text`. */
  predicate PhoneRegexMatch(text: string, form: nat, m: PhoneMatch)
  {
    && GroupsShaped(m)
    && (if form == 0 then Form1(m) else if form == 1 then Form2(m) else Form3(m))
    && DelimitedAt(text, m.start, m.Text())
  }

  /** The engine's matches of the three phone regexes in `text`, one list per regex. */
  predicate PhoneMatches(text: string, perRegex: seq<seq<PhoneMatch>>)
  {
    && |perRegex| == 3
    && forall r, k :: 0 <= r < 3 && 0 <= k < |perRegex[r]| ==> PhoneRegexMatch(text, r, perRegex[r][k])
  }

  /** A match that starts right after a non-ASCII letter is admitted: the
      engine's `\b` holds between 'é' and '('. */
  lemma PhoneAfterNonAscii()
    ensures PhoneRegexMatch("é(555)123-4567", 0, PhoneMatch(1, "(", "555", ")", "", "123", "-", "4567"))
  {
    var m := PhoneMatch(1, "(", "555", ")", "", "123", "-", "4567");
    assert m.Text() == "(555)123-4567";
    assert "é(555)123-4567"[1..14] == m.Text();
  }

  /** The decimal digits of `s`, in order (`c.is_digit(10)`). */
  function Digits(s: string): (d: string)
    ensures AllDigits(d) && |d| <= |s|
  {
    if |s| == 0 then []
    else Digits(s[..|s| - 1]) + (if IsDigit(s[|s| - 1]) then [s[|s| - 1]] else [])
  }

  lemma {:induction false} DigitsOfDigits(s: string)
    requires AllDigits(s)
    ensures Digits(s) == s
  {
    if |s| > 0 {
      DigitsOfDigits(s[..|s| - 1]);
      assert s == s[..|s| - 1] + [s[|s| - 1]];
    }
  }

  /** `normalize_phone`: keep the digits and drop a leading country code 1 from an 11-digit number. */
  function NormalizePhone(phone: string): string
  {
    var d := Digits(phone);
    if |d| == 11 && d[0] == '1' then d[1..] else d
  }

  /** The normal form is all digits and a suffix of the digit string; exactly
      one digit is dropped, and only from an 11-digit string starting with 1. */
  lemma NormalizePhoneSpec(phone: string)
    ensures AllDigits(NormalizePhone(phone))
    ensures var d := Digits(phone);
      && NormalizePhone(phone) == d[|d| - |NormalizePhone(phone)|..]
      && (|NormalizePhone(phone)| < |d| <==> |d| == 11 && d[0] == '1')
      && |d| - |NormalizePhone(phone)| <= 1
  {
  }

  lemma NormalizePhoneIdempotent(phone: string)
    ensures NormalizePhone(NormalizePhone(phone)) == NormalizePhone(phone)
  {
    var n := NormalizePhone(phone);
    DigitsOfDigits(n);
  }

  /** The concatenation of capture groups, as the loop over them builds it. */
  function Concat(groups: seq<string>): string
  {
    if |groups| == 0 then [] else Concat(groups[..|groups| - 1]) + groups[|groups| - 1]
  }

  /** The candidate a capture yields: its groups concatenated. */
  function Candidate(m: PhoneMatch): string { Concat(m.Groups()) }

  /** The length test that decides whether a candidate is kept. */
  predicate Kept(phone: string) { |phone| == 10 || (|phone| == 11 && phone[0] == '1') }

  function PhonesOf(ms: seq<PhoneMatch>): set<string>
  {
    if |ms| == 0 then {}
    else
      var c := Candidate(ms[|ms| - 1]);
      PhonesOf(ms[..|ms| - 1]) + (if Kept(c) then {NormalizePhone(c)} else {})
  }

  function PhonesOfAll(perRegex: seq<seq<PhoneMatch>>): set<string>
  {
    if |perRegex| == 0 then {}
    else PhonesOfAll(perRegex[..|perRegex| - 1]) + PhonesOf(perRegex[|perRegex| - 1])
  }

  lemma CandidateOfShaped(m: PhoneMatch)
    requires GroupsShaped(m)
    ensures Candidate(m) == m.area + m.exchange + m.line
    ensures |Candidate(m)| == 10 && AllDigits(Candidate(m))
    ensures Kept(Candidate(m)) && NormalizePhone(Candidate(m)) == Candidate(m)
  {
    var g := m.Groups();
    assert g[..2][..1] == [m.area];
    assert Concat(g[..1]) == m.area;
    assert Concat(g[..2]) == m.area + m.exchange;
    DigitsOfDigits(Candidate(m));
  }

  lemma {:induction false} PhonesOfShaped(ms: seq<PhoneMatch>)
    requires forall k :: 0 <= k < |ms| ==> GroupsShaped(ms[k])
    ensures forall p :: p in PhonesOf(ms) <==> exists k :: 0 <= k < |ms| && p == Candidate(ms[k])
  {
    if |ms| > 0 {
      var init := ms[..|ms| - 1];
      PhonesOfShaped(init);
      CandidateOfShaped(ms[|ms| - 1]);
      forall p | p in PhonesOf(ms) ensures exists k :: 0 <= k < |ms| && p == Candidate(ms[k]) {
        if p in PhonesOf(init) {
          var k :| 0 <= k < |init| && p == Candidate(init[k]);
          assert ms[k] == init[k];
        }
      }
      forall p | exists k :: 0 <= k < |ms| && p == Candidate(ms[k]) ensures p in PhonesOf(ms) {
        var k :| 0 <= k < |ms| && p == Candidate(ms[k]);
        if k < |ms| - 1 { assert init[k] == ms[k]; }
      }
    }
  }

  lemma PhonesOfThree(rs: seq<seq<PhoneMatch>>)
    requires |rs| == 3
    ensures PhonesOfAll(rs) == PhonesOf(rs[0]) + PhonesOf(rs[1]) + PhonesOf(rs[2])
  {
    assert rs[..3] == rs;
    assert rs[..2][..1] == rs[..1];
    assert rs[..1][..0] == [];
    assert PhonesOfAll(rs[..1]) == PhonesOf(rs[0]);
    assert PhonesOfAll(rs[..2]) == PhonesOf(rs[0]) + PhonesOf(rs[1]);
  }

  /** `p` is the candidate of one of the captures. */
  predicate IsCaptured(perRegex: seq<seq<PhoneMatch>>, p: string)
  {
    exists r, k :: 0 <= r < |perRegex| && 0 <= k < |perRegex[r]| && p == Candidate(perRegex[r][k])
  }

  lemma CapturedInOne(rs: seq<seq<PhoneMatch>>, r: nat, p: string)
    requires r < |rs| && forall k :: 0 <= k < |rs[r]| ==> GroupsShaped(rs[r][k])
    ensures p in PhonesOf(rs[r]) <==> exists k :: 0 <= k < |rs[r]| && p == Candidate(rs[r][k])
  {
    PhonesOfShaped(rs[r]);
  }

  /** Every phone found is one of the reported captures' ten digits, and every
      reported capture contributes its ten digits. */
  lemma PhonesAreTenDigitCaptures(perRegex: seq<seq<PhoneMatch>>)
    requires |perRegex| == 3
    requires forall r, k :: 0 <= r < 3 && 0 <= k < |perRegex[r]| ==> GroupsShaped(perRegex[r][k])
    ensures forall p :: p in PhonesOfAll(perRegex) <==> IsCaptured(perRegex, p)
    ensures forall p :: p in PhonesOfAll(perRegex) ==> |p| == 10 && AllDigits(p)
  {
    var rs := perRegex;
    PhonesOfThree(rs);
    forall p ensures p in PhonesOfAll(rs) <==> IsCaptured(rs, p) {
      CapturedInOne(rs, 0, p);
      CapturedInOne(rs, 1, p);
      CapturedInOne(rs, 2, p);
    }
    forall p | p in PhonesOfAll(rs) ensures |p| == 10 && AllDigits(p) {
      var r, k :| 0 <= r < 3 && 0 <= k < |rs[r]| && p == Candidate(rs[r][k]);
      CandidateOfShaped(rs[r][k]);
    }
  }

  /** `extract_phones`: for each regex, for each capture, concatenate the
      groups and keep the normalised candidate when its length passes. */
  method ExtractPhones(text: string, perRegex: seq<seq<PhoneMatch>>) returns (phones: set<string>)
    requires PhoneMatches(text, perRegex)
    ensures phones == PhonesOfAll(perRegex)
    ensures forall p :: p in phones <==> IsCaptured(perRegex, p)
    ensures forall p :: p in phones ==> |p| == 10 && AllDigits(p)
  {
    phones := CollectPhones(perRegex);
    PhonesAreTenDigitCaptures(perRegex);
  }

  /** The two loops of `extract_phones`, over the regexes and over their captures. */
  method CollectPhones(perRegex: seq<seq<PhoneMatch>>) returns (phones: set<string>)
    ensures phones == PhonesOfAll(perRegex)
  {
    phones := {};
    for r := 0 to |perRegex|
      invariant phones == PhonesOfAll(perRegex[..r])
    {
      var captures := perRegex[r];
      for k := 0 to |captures|
        invariant phones == PhonesOfAll(perRegex[..r]) + PhonesOf(captures[..k])
      {
        var phone := JoinGroups(captures[k].Groups());
        if |phone| == 10 || (|phone| == 11 && phone[0] == '1') {
          phones := phones + {NormalizePhone(phone)};
        }
        assert captures[..k + 1][..k] == captures[..k];
      }
      assert captures[..|captures|] == captures;
      assert perRegex[..r + 1][..r] == perRegex[..r];
    }
    assert perRegex[..|perRegex|] == perRegex;
  }

  /** The innermost loop of `extract_phones`: the capture groups pushed one after another. */
  method JoinGroups(groups: seq<string>) returns (phone: string)
    ensures phone == Concat(groups)
  {
    phone := "";
    for i := 0 to |groups|
      invariant phone == Concat(groups[..i])
    {
      assert groups[..i + 1][..i] == groups[..i];
      phone := phone + groups[i];
    }
    assert groups[..|groups|] == groups;
  }

  // ---------------------------------------------------------------------------
  // Email addresses

  /** `[A-Za-z0-9._%+-]` */
  predicate IsLocalChar(c: char) { IsDigit(c) || IsAsciiLetter(c) || c in "._%+-" }

  /** `[A-Za-z0-9.-]` */
  predicate IsDomainChar(c: char) { IsDigit(c) || IsAsciiLetter(c) || c == '.' || c == '-' }

  /** `[A-Z|a-z]` as written: inside a class `|` is literal, so the class also holds `|`. */
  predicate IsTldCharAsWritten(c: char) { IsAsciiLetter(c) || c == '|' }

  /** The letters-only class the top-level domain is evidently meant to use. */
  predicate IsTldChar(c: char) { IsAsciiLetter(c) }

  /** A match of the email regex, cut at its `@` and at the dot before the top-level domain. */
  datatype EmailMatch = EmailMatch(start: nat, local: string, domain: string, tld: string)
  {
    function Text(): string { local + "@" + domain + "." + tld }
  }

  predicate LocalDomainShaped(m: EmailMatch)
  {
    && |m.local| > 0 && (forall i :: 0 <= i < |m.local| ==> IsLocalChar(m.local[i]))
    && |m.domain| > 0 && (forall i :: 0 <= i < |m.domain| ==> IsDomainChar(m.domain[i]))
  }

  /** The regex exactly as written, with `|` admitted in the top-level domain. */
  predicate EmailShapeAsWritten(m: EmailMatch)
  {
    LocalDomainShaped(m) && |m.tld| >= 2 && forall i :: 0 <= i < |m.tld| ==> IsTldCharAsWritten(m.tld[i])
  }

  /** The regex with the top-level domain restricted to letters. */
  predicate EmailShape(m: EmailMatch)
  {
    LocalDomainShaped(m) && |m.tld| >= 2 && forall i :: 0 <= i < |m.tld| ==> IsTldChar(m.tld[i])
  }

  /** `m` is a match that the email regex, as written, can report in `text`. */
  predicate EmailRegexMatch(text: string, m: EmailMatch)
  {
    EmailShapeAsWritten(m) && DelimitedAt(text, m.start, m.Text())
  }

  /** In "john@example.com|2023" the written class lets the engine report
      "john@example.com|": `\b` holds between '|' and '2'. The letters-only
      class does not admit that match, and the email it yields is no address. */
  lemma EmailTldAdmitsBar()
    ensures var m := EmailMatch(0, "john", "example", "com|");
      && m.Text() == "john@example.com|"
      && EmailRegexMatch("john@example.com|2023", m)
      && !EmailShape(m)
      && !IsEmailAddress(Lower(m.Text()))
  {
    var m := EmailMatch(0, "john", "example", "com|");
    BarMatchDelimited(m);
    assert !IsTldChar(m.tld[3]);
    assert Lower(m.Text())[16] == '|';
  }

  lemma BarMatchDelimited(m: EmailMatch)
    requires m == EmailMatch(0, "john", "example", "com|")
    ensures m.Text() == "john@example.com|" && DelimitedAt("john@example.com|2023", 0, m.Text())
  {
    var text := "john@example.com|2023";
    assert m.Text() == "john@example.com|";
    assert text[..17] == m.Text();
    assert text[16] == '|' && text[17] == '2';
  }

  /** An email address as the regex admits it: a non-empty local part up to
      the only `@`, then a non-empty domain up to the last dot, then a
      top-level domain of two or more characters of `[A-Z|a-z]`. */
  predicate IsEmailAddressAsWritten(s: string)
  {
    var at := IndexOf(s, '@');
    && at > 0
    && (forall i :: 0 <= i < at ==> IsLocalChar(s[i]))
    && IsDomainPart(s[at + 1..])
  }

  /** The domain and top-level domain after the `@`, split at the last dot. */
  predicate IsDomainPart(rest: string)
  {
    var dot := LastIndexOf(rest, '.');
    && dot > 0
    && (forall i :: 0 <= i < dot ==> IsDomainChar(rest[i]))
    && |rest| - dot - 1 >= 2
    && (forall i :: dot < i < |rest| ==> IsTldCharAsWritten(rest[i]))
  }

  /** The address the regex is evidently meant to admit: one without '|'.
      Neither the local part nor the domain admits '|', so this is an
      address whose top-level domain is letters only (`AddressTldIsLetters`). */
  predicate IsEmailAddress(s: string)
  {
    IsEmailAddressAsWritten(s) && '|' !in s
  }

  lemma AddressTldIsLetters(s: string)
    requires IsEmailAddress(s)
    ensures var rest := s[IndexOf(s, '@') + 1..];
      forall i :: LastIndexOf(rest, '.') < i < |rest| ==> IsTldChar(rest[i])
  {
    var rest := s[IndexOf(s, '@') + 1..];
    forall i | LastIndexOf(rest, '.') < i < |rest| ensures IsTldChar(rest[i]) {
      assert rest[i] in s;
    }
  }

  lemma DomainPart(d: string, t: string)
    requires |d| > 0 && (forall i :: 0 <= i < |d| ==> IsDomainChar(d[i]))
    requires |t| >= 2 && (forall i :: 0 <= i < |t| ==> IsTldCharAsWritten(t[i]))
    ensures IsDomainPart(d + "." + t)
  {
    var rest := d + "." + t;
    assert rest == d + ['.'] + t;
    assert '.' !in t;
    LastIndexOfBefore(d, '.', t);
    assert forall i :: |d| < i < |rest| ==> rest[i] == t[i - |d| - 1];
  }

  /** The parts of an address split at the first `@` and, after it, at the last dot. */
  lemma EmailAddressParts(l: string, d: string, t: string)
    requires |l| > 0 && (forall i :: 0 <= i < |l| ==> IsLocalChar(l[i]))
    requires |d| > 0 && (forall i :: 0 <= i < |d| ==> IsDomainChar(d[i]))
    requires |t| >= 2 && (forall i :: 0 <= i < |t| ==> IsTldCharAsWritten(t[i]))
    ensures IsEmailAddressAsWritten(l + "@" + d + "." + t)
  {
    var rest := d + "." + t;
    var s := l + ['@'] + rest;
    assert s == l + "@" + d + "." + t;
    assert '@' !in l;
    IndexOfAfter(l, '@', rest);
    assert s[|l| + 1..] == rest;
    DomainPart(d, t);
  }

  /** Lowercasing a match of the email regex as written gives a lowercase
      address of the written shape. */
  lemma LoweredMatchIsAddressAsWritten(m: EmailMatch)
    requires EmailShapeAsWritten(m)
    ensures IsEmailAddressAsWritten(Lower(m.Text())) && IsLower(Lower(m.Text()))
  {
    var l, d, t := Lower(m.local), Lower(m.domain), Lower(m.tld);
    LowerConcat(m.local + "@" + m.domain + ".", m.tld);
    LowerConcat(m.local + "@" + m.domain, ".");
    LowerConcat(m.local + "@", m.domain);
    LowerConcat(m.local, "@");
    assert Lower("@") == "@" && Lower(".") == ".";
    assert Lower(m.Text()) == l + "@" + d + "." + t;
    EmailAddressParts(l, d, t);
    LowerIsLowerIdempotent(m.Text());
  }

  /** With the letters-only class, lowercasing a match gives a lowercase email
      address without '|'. */
  lemma LoweredMatchIsAddress(m: EmailMatch)
    requires EmailShape(m)
    ensures IsEmailAddress(Lower(m.Text())) && IsLower(Lower(m.Text()))
  {
    LoweredMatchIsAddressAsWritten(m);
    var t := m.Text();
    MatchHasNoBar(m);
    assert forall i :: 0 <= i < |t| ==> Lower(t)[i] != '|';
  }

  /** No part of a letters-only match holds '|'. */
  lemma MatchHasNoBar(m: EmailMatch)
    requires EmailShape(m)
    ensures forall i :: 0 <= i < |m.Text()| ==> m.Text()[i] != '|'
  {
    var t := m.Text();
    assert t == m.local + "@" + m.domain + "." + m.tld;
    assert forall i :: 0 <= i < |m.local| ==> m.local[i] != '|';
    assert forall i :: 0 <= i < |m.domain| ==> m.domain[i] != '|';
    assert forall i :: 0 <= i < |m.tld| ==> m.tld[i] != '|';
  }

  /** The lowercase text of every match in `matches`. */
  function LoweredTexts(matches: seq<EmailMatch>): set<string>
  {
    set k | 0 <= k < |matches| :: Lower(matches[k].Text())
  }

  /** `extract_emails`: the lowercase text of every reported match, as a set. */
  function ExtractEmails(text: string, matches: seq<EmailMatch>): (emails: set<string>)
    requires forall k :: 0 <= k < |matches| ==> EmailRegexMatch(text, matches[k])
    ensures forall k :: 0 <= k < |matches| ==> Lower(matches[k].Text()) in emails
    ensures forall e :: e in emails ==> exists k :: 0 <= k < |matches| && e == Lower(matches[k].Text())
    ensures forall e :: e in emails ==> IsLower(e) && IsEmailAddressAsWritten(e)
  {
    LoweredMatchesAreAddresses(text, matches);
    LoweredTexts(matches)
  }

  lemma LoweredMatchesAreAddresses(text: string, matches: seq<EmailMatch>)
    requires forall k :: 0 <= k < |matches| ==> EmailRegexMatch(text, matches[k])
    ensures forall k :: 0 <= k < |matches| ==>
      IsLower(Lower(matches[k].Text())) && IsEmailAddressAsWritten(Lower(matches[k].Text()))
  {
    forall k | 0 <= k < |matches|
      ensures IsLower(Lower(matches[k].Text())) && IsEmailAddressAsWritten(Lower(matches[k].Text()))
    {
      LoweredMatchIsAddressAsWritten(matches[k]);
    }
  }

  // ---------------------------------------------------------------------------
  // IP addresses

  /** `25[0-5]|2[0-4][0-9]|[01]?[0-9][0-9]?` */
  predicate OctetRegex(s: string)
  {
    && AllDigits(s)
    && (|| (|s| == 3 && s[0] == '2' && s[1] == '5' && s[2] <= '5')
        || (|s| == 3 && s[0] == '2' && s[1] <= '4')
        || (|s| == 3 && (s[0] == '0' || s[0] == '1'))
        || (1 <= |s| <= 2))
  }

  /** One to three decimal digits, leading zeros allowed, worth at most 255. */
  predicate IsOctet(s: string) { 1 <= |s| <= 3 && AllDigits(s) && ParseNat(s) <= 255 }

  lemma ParseNatThree(s: string)
    requires |s| == 3 && AllDigits(s)
    ensures ParseNat(s) == 100 * DigitValue(s[0]) + 10 * DigitValue(s[1]) + DigitValue(s[2])
  {
    assert s[..2][..1] == [s[0]];
    assert ParseNat([s[0]]) == DigitValue(s[0]);
  }

  /** The octet alternation accepts exactly the 1-3 digit strings worth at most 255. */
  lemma OctetRegexIsByteValue(s: string)
    ensures OctetRegex(s) <==> IsOctet(s)
  {
    if |s| == 3 && AllDigits(s) { ParseNatThree(s); }
    if |s| == 2 && AllDigits(s) {
      assert s[..1] == [s[0]] && s[..1][..0] == [];
      assert ParseNat(s[..1]) == DigitValue(s[0]);
    }
    if |s| == 1 && AllDigits(s) {
      assert s[..0] == [];
      assert ParseNat(s) == DigitValue(s[0]);
    }
  }

  datatype Ipv4Match = Ipv4Match(start: nat, octets: seq<string>)
  {
    function Text(): string { Join(octets, ".") }
  }

  predicate Ipv4RegexMatch(text: string, m: Ipv4Match)
  {
    && |m.octets| == 4
    && (forall k :: 0 <= k < 4 ==> OctetRegex(m.octets[k]))
    && DelimitedAt(text, m.start, m.Text())
  }

  /** Four dot-separated octets. */
  predicate IsIpv4Address(s: string)
  {
    var parts := Split(s, '.');
    |parts| == 4 && forall k :: 0 <= k < 4 ==> IsOctet(parts[k])
  }

  /** `[A-Fa-f0-9]{1,4}` */
  predicate IsHexGroup(s: string)
  {
    1 <= |s| <= 4 && forall i :: 0 <= i < |s| ==> IsHexDigit(s[i])
  }

  /** A match of `(?:[A-Fa-f0-9]{1,4}:){7}[A-Fa-f0-9]{1,4}`: the uncompressed form only. */
  datatype Ipv6Match = Ipv6Match(start: nat, groups: seq<string>)
  {
    function Text(): string { Join(groups, ":") }
  }

  predicate Ipv6RegexMatch(text: string, m: Ipv6Match)
  {
    && |m.groups| == 8
    && (forall k :: 0 <= k < 8 ==> IsHexGroup(m.groups[k]))
    && DelimitedAt(text, m.start, m.Text())
  }

  /** Eight colon-separated groups of one to four hex digits. */
  predicate IsIpv6Address(s: string)
  {
    var parts := Split(s, ':');
    |parts| == 8 && forall k :: 0 <= k < 8 ==> IsHexGroup(parts[k])
  }

  lemma Ipv4MatchIsAddress(text: string, m: Ipv4Match)
    requires Ipv4RegexMatch(text, m)
    ensures IsIpv4Address(m.Text())
  {
    forall k | 0 <= k < 4 ensures '.' !in m.octets[k] && IsOctet(m.octets[k]) {
      OctetRegexIsByteValue(m.octets[k]);
    }
    SplitJoin(m.octets, '.');
  }

  lemma Ipv6MatchIsAddress(text: string, m: Ipv6Match)
    requires Ipv6RegexMatch(text, m)
    ensures IsIpv6Address(m.Text())
  {
    forall k | 0 <= k < 8 ensures ':' !in m.groups[k] {
      assert forall i :: 0 <= i < |m.groups[k]| ==> IsHexDigit(m.groups[k][i]);
    }
    SplitJoin(m.groups, ':');
  }

  /** The text of four octets, laid out: the dots sit after the first,
      second and third octet, and every other character is a digit. */
  lemma Ipv4TextShape(m: Ipv4Match)
    requires |m.octets| == 4 && forall k :: 0 <= k < 4 ==> OctetRegex(m.octets[k])
    ensures var o, t := m.octets, m.Text();
      var a := |o[0]|; var b := a + 1 + |o[1]|; var c := b + 1 + |o[2]|;
      && (forall k :: 0 <= k < 4 ==> 1 <= |o[k]| <= 3)
      && |t| == c + 1 + |o[3]| && t[a] == '.' && t[b] == '.' && t[c] == '.'
      && (forall i :: 0 <= i < |t| && i != a && i != b && i != c ==> IsDigit(t[i]))
      && t[..a] == o[0] && t[c + 1..] == o[3]
  {
    var o := m.octets;
    assert o[1..][1..][1..] == [o[3]];
    assert Join(o[1..][1..], ".") == o[2] + "." + o[3];
    assert Join(o[1..], ".") == o[1] + "." + (o[2] + "." + o[3]);
    forall k | 0 <= k < 4 ensures 1 <= |o[k]| <= 3 && AllDigits(o[k]) {
      assert OctetRegex(o[k]);
    }
  }

  /** A match begins and ends with a digit, so `\b` keeps a word character
      from touching it on either side: "10.0.0.25" is no match inside
      "10.0.0.256". */
  lemma Ipv4MatchStandsAlone(text: string, m: Ipv4Match)
    requires Ipv4RegexMatch(text, m)
    ensures m.start > 0 ==> !IsWordChar(text[m.start - 1])
    ensures m.start + |m.Text()| < |text| ==> !IsWordChar(text[m.start + |m.Text()|])
  {
    var t := m.Text();
    Ipv4TextShape(m);
    assert text[m.start] == t[0] && text[m.start + |t| - 1] == t[|t| - 1];
  }

  /** Neither "10.0.0.256" nor "999.168.1.1" holds an IPv4 match: the
      out-of-range octet cannot be cut short, because a word character would
      follow or precede the match. */
  lemma Ipv4RejectsOutOfRange()
    ensures forall m :: !Ipv4RegexMatch("10.0.0.256", m)
    ensures forall m :: !Ipv4RegexMatch("999.168.1.1", m)
  {
    forall m ensures !Ipv4RegexMatch("10.0.0.256", m) && !Ipv4RegexMatch("999.168.1.1", m) {
      NoMatchIn256(m);
      NoMatchIn999(m);
    }
  }

  /** Where a match sits in the text: its three dots, digits elsewhere, its
      first and last octet, and no word character touching it. */
  lemma Ipv4MatchLaidOut(text: string, m: Ipv4Match)
    ensures Ipv4RegexMatch(text, m) ==> Ipv4LaidOut(text, m)
  {
    if Ipv4RegexMatch(text, m) {
      Ipv4MatchInText(text, m);
    }
  }

  predicate Ipv4LaidOut(text: string, m: Ipv4Match)
    requires |m.octets| == 4
  {
    && Ipv4DotsAt(text, m)
    && Ipv4OuterOctetsAt(text, m)
    && (m.start > 0 ==> !IsWordChar(text[m.start - 1]))
    && (m.start + |m.Text()| < |text| ==> !IsWordChar(text[m.start + |m.Text()|]))
  }

  /** The match's three dots in text positions, and digits everywhere else. */
  predicate Ipv4DotsAt(text: string, m: Ipv4Match)
    requires |m.octets| == 4
  {
    var o, s, e := m.octets, m.start, m.start + |m.Text()|;
    var a := s + |o[0]|; var b := a + 1 + |o[1]|; var c := b + 1 + |o[2]|;
    && s <= a < b < c < e <= |text| && e == c + 1 + |o[3]|
    && text[a] == '.' && text[b] == '.' && text[c] == '.'
    && (forall i :: s <= i < e && i != a && i != b && i != c ==> IsDigit(text[i]))
  }

  /** The first and the last octet, read off the text. */
  predicate Ipv4OuterOctetsAt(text: string, m: Ipv4Match)
    requires |m.octets| == 4
  {
    var o, s, e := m.octets, m.start, m.start + |m.Text()|;
    && s + |o[0]| <= e - |o[3]| && e <= |text|
    && text[s..s + |o[0]|] == o[0] && OctetRegex(o[0])
    && text[e - |o[3]|..e] == o[3] && OctetRegex(o[3])
  }

  lemma Ipv4MatchInText(text: string, m: Ipv4Match)
    requires Ipv4RegexMatch(text, m)
    ensures Ipv4LaidOut(text, m)
  {
    Ipv4DotsInText(text, m);
    Ipv4OuterOctetsInText(text, m);
    Ipv4MatchStandsAlone(text, m);
  }

  lemma Ipv4DotsInText(text: string, m: Ipv4Match)
    requires Ipv4RegexMatch(text, m)
    ensures Ipv4DotsAt(text, m)
  {
    var o, t, s := m.octets, m.Text(), m.start;
    Ipv4TextShape(m);
    var a := |o[0]|; var b := a + 1 + |o[1]|; var c := b + 1 + |o[2]|;
    assert forall i :: 0 <= i < |t| ==> text[s + i] == t[i];
    forall i | s <= i < s + |t| && i != s + a && i != s + b && i != s + c
      ensures IsDigit(text[i])
    {
      assert text[i] == t[i - s];
    }
  }

  lemma Ipv4OuterOctetsInText(text: string, m: Ipv4Match)
    requires Ipv4RegexMatch(text, m)
    ensures Ipv4OuterOctetsAt(text, m)
  {
    var o, t, s := m.octets, m.Text(), m.start;
    Ipv4TextShape(m);
    assert text[s..s + |t|] == t;
    assert text[s..s + |o[0]|] == t[..|o[0]|];
    assert text[s + |t| - |o[3]|..s + |t|] == t[|t| - |o[3]|..];
    assert OctetRegex(o[0]) && OctetRegex(o[3]);
  }

  lemma NoMatchIn256(m: Ipv4Match)
    ensures !Ipv4RegexMatch("10.0.0.256", m)
  {
    var text := "10.0.0.256";
    assert forall p :: 0 <= p < |text| && text[p] == '.' ==> p == 2 || p == 4 || p == 6;
    assert text[7..] == "256" && !OctetRegex("256");
    Ipv4MatchLaidOut(text, m);
  }

  lemma NoMatchIn999(m: Ipv4Match)
    ensures !Ipv4RegexMatch("999.168.1.1", m)
  {
    var text := "999.168.1.1";
    assert forall p :: 0 <= p < |text| && text[p] == '.' ==> p == 3 || p == 7 || p == 9;
    assert text[..3] == "999" && !OctetRegex("999");
    Ipv4MatchLaidOut(text, m);
  }

  function Ipv4Texts(v4: seq<Ipv4Match>): set<string> { set k | 0 <= k < |v4| :: v4[k].Text() }

  function Ipv6Texts(v6: seq<Ipv6Match>): set<string> { set k | 0 <= k < |v6| :: v6[k].Text() }

  /** The verbatim text of every reported IPv4 match is an IPv4 address, and of every IPv6 match an IPv6 address. */
  lemma IpTextsAreAddresses(text: string, v4: seq<Ipv4Match>, v6: seq<Ipv6Match>)
    requires forall k :: 0 <= k < |v4| ==> Ipv4RegexMatch(text, v4[k])
    requires forall k :: 0 <= k < |v6| ==> Ipv6RegexMatch(text, v6[k])
    ensures forall ip :: ip in Ipv4Texts(v4) ==> IsIpv4Address(ip)
    ensures forall ip :: ip in Ipv6Texts(v6) ==> IsIpv6Address(ip)
  {
    forall ip | ip in Ipv4Texts(v4) ensures IsIpv4Address(ip) {
      var j :| 0 <= j < |v4| && ip == v4[j].Text();
      Ipv4MatchIsAddress(text, v4[j]);
    }
    forall ip | ip in Ipv6Texts(v6) ensures IsIpv6Address(ip) {
      var j :| 0 <= j < |v6| && ip == v6[j].Text();
      Ipv6MatchIsAddress(text, v6[j]);
    }
  }

  /** `extract_ips`: the verbatim text of every IPv4 match, then of every IPv6 match, as a set. */
  method ExtractIps(text: string, v4: seq<Ipv4Match>, v6: seq<Ipv6Match>) returns (ips: set<string>)
    requires forall k :: 0 <= k < |v4| ==> Ipv4RegexMatch(text, v4[k])
    requires forall k :: 0 <= k < |v6| ==> Ipv6RegexMatch(text, v6[k])
    ensures ips == Ipv4Texts(v4) + Ipv6Texts(v6)
    ensures forall ip :: ip in ips ==> IsIpv4Address(ip) || IsIpv6Address(ip)
  {
    ips := CollectIps(v4, v6);
    IpTextsAreAddresses(text, v4, v6);
  }

  /** The two loops of `extract_ips`: every IPv4 match, then every IPv6 match. */
  method CollectIps(v4: seq<Ipv4Match>, v6: seq<Ipv6Match>) returns (ips: set<string>)
    ensures ips == Ipv4Texts(v4) + Ipv6Texts(v6)
  {
    ips := {};
    for k := 0 to |v4|
      invariant ips == Ipv4Texts(v4[..k])
    {
      Ipv4TextsSnoc(v4, k);
      ips := ips + {v4[k].Text()};
    }
    assert v4[..|v4|] == v4;
    for k := 0 to |v6|
      invariant ips == Ipv4Texts(v4) + Ipv6Texts(v6[..k])
    {
      Ipv6TextsSnoc(v6, k);
      ips := ips + {v6[k].Text()};
    }
    assert v6[..|v6|] == v6;
  }

  lemma Ipv4TextsSnoc(v4: seq<Ipv4Match>, k: int)
    requires 0 <= k < |v4|
    ensures Ipv4Texts(v4[..k + 1]) == Ipv4Texts(v4[..k]) + {v4[k].Text()}
  {
    assert v4[..k + 1] == v4[..k] + [v4[k]];
  }

  lemma Ipv6TextsSnoc(v6: seq<Ipv6Match>, k: int)
    requires 0 <= k < |v6|
    ensures Ipv6Texts(v6[..k + 1]) == Ipv6Texts(v6[..k]) + {v6[k].Text()}
  {
    assert v6[..k + 1] == v6[..k] + [v6[k]];
  }

  // ---------------------------------------------------------------------------
  // What the engine reports for one scanned text

  datatype Scan = Scan(
    phones: seq<seq<PhoneMatch>>, emails: seq<EmailMatch>, ipv4: seq<Ipv4Match>, ipv6: seq<Ipv6Match>)

  /** Every reported match is one the corresponding regex can report in `text`. */
  predicate ValidScan(text: string, s: Scan)
  {
    && PhoneMatches(text, s.phones)
    && (forall k :: 0 <= k < |s.emails| ==> EmailRegexMatch(text, s.emails[k]))
    && (forall k :: 0 <= k < |s.ipv4| ==> Ipv4RegexMatch(text, s.ipv4[k]))
    && (forall k :: 0 <= k < |s.ipv6| ==> Ipv6RegexMatch(text, s.ipv6[k]))
  }

  /** A regex engine that, for every text, reports only matches the regexes can report in it. */
  ghost predicate Scanner(scan: string -> Scan)
  {
    forall t {:trigger ValidScan(t, scan(t))} :: ValidScan(t, scan(t))
  }
}
