/**
 * The country-keyed table of postal-code rules and the four fixed formats it
 * names. Each format is written as a hand-coded predicate (`Matches`) and, for
 * reference, as the language its regular expression denotes (`InLanguage`);
 * `MatchesIffInLanguage` proves the two agree.
 */
module PostalRules {
  import opened Decimal

  /** A postal-code format, given by its meaning rather than by regular-expression text. */
  datatype Pattern =
    | AnyString                                   // `.*`, the fallback of an unknown country
    | PrefixedDigits(prefix: string, count: nat)  // `^(PREFIX)?\d{count}$`
    | Dutch                                       // `^(NL-)?\d{4}\s*([A-RT-Z][A-Z]|S[BCE-RT-Z])$`
  {
    /** The optional prefix of a digit format cannot itself start like the digits. */
    predicate WellFormed() {
      PrefixedDigits? ==> |prefix| > 0 && !IsDigit(prefix[0])
    }
  }

  /** One entry of the table: the format to test and the message shown when it fails. */
  datatype Rule = Rule(pattern: Pattern, message: string)

  const SwissMessage := "Swiss postal codes must have exactly 4 digits: e.g. CH-1950 or 1950"
  const FrenchMessage := "French postal codes must have exactly 5 digits: e.g. F-75012 or 75012"
  const GermanMessage := "German postal codes must have exactly 5 digits: e.g. D-12345 or 12345"
  const DutchMessage := "Dutch postal codes must be 4 digits + 2 letters (not SA, SD, SS)"

  /** The rule table, keyed by country code. */
  function Constraints(): map<string, Rule> {
    map[
      "ch" := Rule(PrefixedDigits("CH-", 4), SwissMessage),
      "fr" := Rule(PrefixedDigits("F-", 5), FrenchMessage),
      "de" := Rule(PrefixedDigits("D-", 5), GermanMessage),
      "nl" := Rule(Dutch, DutchMessage)
    ]
  }

  /**
   * The rule of a country. Every code outside the table, the empty "no
   * selection" code and inherited object-property names alike, falls back to
   * the accept-anything pattern with an empty message.
   */
  function Lookup(country: string): (r: Rule)
    ensures country !in Constraints() ==> r == Rule(AnyString, "")
    ensures country in Constraints() ==> r == Constraints()[country]
    ensures r.message == "" <==> r.pattern == AnyString
    ensures r.pattern.WellFormed()
  {
    if country in Constraints() then Constraints()[country] else Rule(AnyString, "")
  }

  // ----- character classes -----

  /** `\s`: an ECMAScript white-space or line-terminator character. */
  predicate IsSpace(c: char) {
    c == '\t' || c == '\n' || c == '\U{000B}' || c == '\U{000C}' || c == '\r' || c == ' '
    || c == '\U{00A0}' || c == '\U{1680}' || '\U{2000}' <= c <= '\U{200A}'
    || c == '\U{2028}' || c == '\U{2029}' || c == '\U{202F}' || c == '\U{205F}'
    || c == '\U{3000}' || c == '\U{FEFF}'
  }

  predicate AllSpace(s: string) {
    forall i :: 0 <= i < |s| ==> IsSpace(s[i])
  }

  /** `[A-Z]` */
  predicate IsUpper(c: char) {
    'A' <= c <= 'Z'
  }

  /** `[A-RT-Z][A-Z]|S[BCE-RT-Z]`: the two letters that close a Dutch code. */
  predicate DutchLetters(a: char, b: char) {
    (('A' <= a <= 'R' || 'T' <= a <= 'Z') && IsUpper(b))
    || (a == 'S' && (b == 'B' || b == 'C' || 'E' <= b <= 'R' || 'T' <= b <= 'Z'))
  }

  /** `s` without its leading `prefix`, or `s` itself when it does not start with it. */
  function StripPrefix(s: string, prefix: string): (t: string)
    ensures prefix <= s ==> s == prefix + t
    ensures !(prefix <= s) ==> t == s
  {
    if prefix <= s then s[|prefix|..] else s
  }

  // ----- the matcher -----

  /**
   * `RegExp.test` of the pattern on `s`, scanned left to right: drop the
   * optional prefix, then check what is left. `.*` is not anchored, so it finds
   * the empty match at position 0 of every string.
   */
  predicate Matches(p: Pattern, s: string) {
    match p
    case AnyString => true
    case PrefixedDigits(prefix, count) =>
      var t := StripPrefix(s, prefix);
      |t| == count && AllDigits(t)
    case Dutch =>
      var t := StripPrefix(s, "NL-");
      |t| >= 6 && AllDigits(t[..4]) && AllSpace(t[4..|t| - 2]) && DutchLetters(t[|t| - 2], t[|t| - 1])
  }

  // ----- the languages the regular expressions denote -----

  /** `q` is one choice of the optional group `(prefix)?` and `d` is `\d{count}`. */
  ghost predicate DigitsParts(prefix: string, count: nat, q: string, d: string) {
    (q == "" || q == prefix) && |d| == count && AllDigits(d)
  }

  /** `q` is `(NL-)?`, `d` is `\d{4}`, `w` is `\s*` and `a`, `b` the closing letters. */
  ghost predicate DutchParts(q: string, d: string, w: string, a: char, b: char) {
    (q == "" || q == "NL-") && |d| == 4 && AllDigits(d) && AllSpace(w) && DutchLetters(a, b)
  }

  /** The strings the anchored regular expression of `p` accepts, as a concatenation of its parts. */
  ghost predicate InLanguage(p: Pattern, s: string) {
    match p
    case AnyString => true
    case PrefixedDigits(prefix, count) =>
      exists q, d :: DigitsParts(prefix, count, q, d) && s == q + d
    case Dutch =>
      exists q, d, w, a, b :: DutchParts(q, d, w, a, b) && s == q + d + w + [a, b]
  }

  lemma {:induction false} PrefixedDigitsIffInLanguage(prefix: string, count: nat, s: string)
    requires PrefixedDigits(prefix, count).WellFormed()
    ensures Matches(PrefixedDigits(prefix, count), s) <==> InLanguage(PrefixedDigits(prefix, count), s)
  {
    var p := PrefixedDigits(prefix, count);
    if Matches(p, s) {
      var t := StripPrefix(s, prefix);
      if prefix <= s {
        assert DigitsParts(prefix, count, prefix, t) && s == prefix + t;
      } else {
        assert DigitsParts(prefix, count, "", t) && s == "" + t;
      }
    }
    if InLanguage(p, s) {
      var q, d :| DigitsParts(prefix, count, q, d) && s == q + d;
      if q == "" {
        if |s| > 0 {
          assert IsDigit(s[0]);
        }
        assert !(prefix <= s);
      } else {
        assert s[|prefix|..] == d;
      }
    }
  }

  lemma DutchMatchInLanguage(s: string)
    requires Matches(Dutch, s)
    ensures InLanguage(Dutch, s)
  {
    var t := StripPrefix(s, "NL-");
    var q := if "NL-" <= s then "NL-" else "";
    var d, w := t[..4], t[4..|t| - 2];
    var a, b := t[|t| - 2], t[|t| - 1];
    assert t == d + w + [a, b];
    assert DutchParts(q, d, w, a, b) && s == q + d + w + [a, b];
  }

  lemma DutchPartsMatch(q: string, d: string, w: string, a: char, b: char)
    requires DutchParts(q, d, w, a, b)
    ensures Matches(Dutch, q + d + w + [a, b])
  {
    var s, t := q + d + w + [a, b], d + w + [a, b];
    if q == "" {
      assert IsDigit(s[0]);
      assert !("NL-" <= s);
    } else {
      assert s[3..] == t;
    }
    assert StripPrefix(s, "NL-") == t;
    assert t[..4] == d;
    assert t[4..|t| - 2] == w;
  }

  lemma DutchIffInLanguage(s: string)
    ensures Matches(Dutch, s) <==> InLanguage(Dutch, s)
  {
    if Matches(Dutch, s) {
      DutchMatchInLanguage(s);
    }
    if InLanguage(Dutch, s) {
      var q, d, w, a, b :| DutchParts(q, d, w, a, b) && s == q + d + w + [a, b];
      DutchPartsMatch(q, d, w, a, b);
    }
  }

  /** The hand-coded matcher accepts exactly the language of the regular expression it stands for. */
  lemma MatchesIffInLanguage(p: Pattern, s: string)
    requires p.WellFormed()
    ensures Matches(p, s) <==> InLanguage(p, s)
  {
    match p
    case AnyString =>
    case PrefixedDigits(prefix, count) => PrefixedDigitsIffInLanguage(prefix, count, s);
    case Dutch => DutchIffInLanguage(s);
  }

  /** The closing letters of a Dutch code are two capitals other than SA, SD and SS, as its message says. */
  lemma DutchLettersExcludeReserved(a: char, b: char)
    ensures DutchLetters(a, b) <==> IsUpper(a) && IsUpper(b) && !(a == 'S' && (b == 'A' || b == 'D' || b == 'S'))
  {
  }

  /** Every format in the table rejects something; only the fallback accepts every string. */
  lemma OnlyFallbackAcceptsAll(country: string)
    ensures (forall s :: Matches(Lookup(country).pattern, s)) <==> country !in Constraints()
  {
    if country in Constraints() {
      assert !Matches(Lookup(country).pattern, "");
    }
  }

  // ----- sample codes -----
  // The accepted Swiss, French and German codes are the ones quoted in their
  // rule messages; the Dutch codes and the rejected near misses are chosen here.

  lemma SwissExamples()
    ensures Matches(Lookup("ch").pattern, "1950")
    ensures Matches(Lookup("ch").pattern, "CH-1950")
    ensures !Matches(Lookup("ch").pattern, "19501")
  {
  }

  lemma FrenchExamples()
    ensures Matches(Lookup("fr").pattern, "75012")
    ensures Matches(Lookup("fr").pattern, "F-75012")
    ensures !Matches(Lookup("fr").pattern, "7501")
  {
  }

  lemma GermanExamples()
    ensures Matches(Lookup("de").pattern, "12345")
    ensures Matches(Lookup("de").pattern, "D-12345")
    ensures !Matches(Lookup("de").pattern, "1234")
  {
  }

  lemma DutchExamples()
    ensures Matches(Lookup("nl").pattern, "1234 AB")
    ensures Matches(Lookup("nl").pattern, "NL-1234AB")
    ensures !Matches(Lookup("nl").pattern, "1234 SA")
    ensures !Matches(Lookup("nl").pattern, "1234 SD")
    ensures !Matches(Lookup("nl").pattern, "1234 SS")
  {
    assert "1234 AB"[0] != "NL-"[0];
    assert "1234 AB"[..4] == "1234" && AllDigits("1234");
    assert "1234 AB"[4..5] == " ";
    assert "NL-1234AB"[3..] == "1234AB";
    assert "1234AB"[..4] == "1234" && "1234AB"[4..4] == "";
  }

  /** An unknown or unset country accepts every postal code. */
  lemma UnknownCountryAcceptsAll(country: string, s: string)
    requires country !in Constraints()
    ensures Matches(Lookup(country).pattern, s) && Lookup(country).message == ""
  {
  }
}
