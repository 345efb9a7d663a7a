/** The field validators of the two schemas: the mobile-number pattern `^\d{10}$`
    (declared identically by the user and the website schema) and the e-mail pattern
    `^[\w-\.]+@([\w-]+\.)+[\w-]{2,4}$`. Each is a computable predicate, checked against an
    independent description of the strings it accepts. */
module Validators {

  // ---------------------------------------------------------------- characters

  /** `\d` without the `u` flag: an ASCII digit. */
  predicate IsDigit(c: char) {
    '0' <= c <= '9'
  }

  /** `\w` without the `u` flag: an ASCII letter, digit or underscore. */
  predicate IsWordChar(c: char) {
    'a' <= c <= 'z' || 'A' <= c <= 'Z' || IsDigit(c) || c == '_'
  }

  /** `[\w-\.]`: after a class escape the `-` is literal, so word chars, '-' and '.'. */
  predicate IsLocalChar(c: char) {
    IsWordChar(c) || c == '-' || c == '.'
  }

  /** `[\w-]`: word chars and '-'. */
  predicate IsLabelChar(c: char) {
    IsWordChar(c) || c == '-'
  }

  // ---------------------------------------------------------------- mobile number

  predicate AllDigits(s: string) {
    forall i :: 0 <= i < |s| ==> IsDigit(s[i])
  }

  /** `^\d{10}$` */
  predicate ValidMobileNumber(s: string) {
    |s| == 10 && AllDigits(s)
  }

  function Pow10(n: nat): (r: nat)
    ensures r > 0
  {
    if n == 0 then 1 else 10 * Pow10(n - 1)
  }

  function DigitChar(d: nat): (c: char)
    requires d < 10
    ensures IsDigit(c)
  {
    ('0' as int + d) as char
  }

  /** The `width` low-order decimal digits of `n`, most significant first, zero-padded. */
  function Numeral(n: nat, width: nat): string
  {
    if width == 0 then "" else Numeral(n / 10, width - 1) + [DigitChar(n % 10)]
  }

  /** The number a string of decimal digits denotes. */
  function NumeralValue(s: string): nat
    requires AllDigits(s)
  {
    if s == [] then 0
    else 10 * NumeralValue(s[..|s| - 1]) + (s[|s| - 1] as int - '0' as int)
  }

  lemma {:induction false} NumeralShape(n: nat, width: nat)
    ensures |Numeral(n, width)| == width && AllDigits(Numeral(n, width))
  {
    if width > 0 {
      NumeralShape(n / 10, width - 1);
    }
  }

  lemma {:induction false} NumeralValueBound(s: string)
    requires AllDigits(s)
    ensures NumeralValue(s) < Pow10(|s|)
  {
    if s != [] {
      var p := s[..|s| - 1];
      assert AllDigits(p) by { forall i | 0 <= i < |p| ensures IsDigit(p[i]) { assert p[i] == s[i]; } }
      NumeralValueBound(p);
    }
  }

  lemma {:induction false} NumeralOfValue(s: string)
    requires AllDigits(s)
    ensures Numeral(NumeralValue(s), |s|) == s
  {
    if s != [] {
      var p := s[..|s| - 1];
      assert AllDigits(p) by { forall i | 0 <= i < |p| ensures IsDigit(p[i]) { assert p[i] == s[i]; } }
      var d := s[|s| - 1] as int - '0' as int;
      var v := 10 * NumeralValue(p) + d;
      assert v / 10 == NumeralValue(p) && v % 10 == d;
      NumeralOfValue(p);
      assert s == p + [s[|s| - 1]];
    }
  }

  /** A valid mobile number is exactly the zero-padded ten-digit numeral of a number below 10^10. */
  lemma MobileNumberIsTenDigitNumeral(s: string)
    ensures ValidMobileNumber(s) <==> exists n: nat :: n < Pow10(10) && Numeral(n, 10) == s
  {
    if ValidMobileNumber(s) {
      NumeralOfValue(s);
      NumeralValueBound(s);
      assert Numeral(NumeralValue(s), 10) == s;
    }
    if exists n: nat :: n < Pow10(10) && Numeral(n, 10) == s {
      var n: nat :| n < Pow10(10) && Numeral(n, 10) == s;
      NumeralShape(n, 10);
    }
  }

  // ---------------------------------------------------------------- e-mail

  /** `[\w-\.]+` */
  predicate IsLocalPart(s: string) {
    |s| > 0 && forall i :: 0 <= i < |s| ==> IsLocalChar(s[i])
  }

  /** `[\w-]+` */
  predicate IsLabel(s: string) {
    |s| > 0 && forall i :: 0 <= i < |s| ==> IsLabelChar(s[i])
  }

  /** `[\w-]{2,4}` */
  predicate IsTopLabel(s: string) {
    2 <= |s| <= 4 && forall i :: 0 <= i < |s| ==> IsLabelChar(s[i])
  }

  /** Position of the first `c` in `s`, or `|s|` when there is none. */
  function IndexOf(s: string, c: char): (k: nat)
    ensures k <= |s|
    ensures k < |s| ==> s[k] == c
    ensures forall i :: 0 <= i < k ==> s[i] != c
  {
    if s == [] then 0
    else if s[0] == c then 0
    else 1 + IndexOf(s[1..], c)
  }

  /** `([\w-]+\.)*[\w-]{2,4}`: a top label, or a label, a dot and again this. A label holds no
      dot, so the dot that ends the first label is the first dot. */
  predicate DomainTail(t: string)
    decreases |t|
  {
    IsTopLabel(t) ||
    (var k := IndexOf(t, '.'); k < |t| && IsLabel(t[..k]) && DomainTail(t[k + 1..]))
  }

  /** `([\w-]+\.)+[\w-]{2,4}`: at least one dot-terminated label before the top label. */
  predicate ValidDomain(d: string) {
    var k := IndexOf(d, '.');
    k < |d| && IsLabel(d[..k]) && DomainTail(d[k + 1..])
  }

  /** `^[\w-\.]+@([\w-]+\.)+[\w-]{2,4}$`. No character class admits '@', so the first '@'
      is the only one. */
  predicate ValidEmail(s: string) {
    var k := IndexOf(s, '@');
    k < |s| && IsLocalPart(s[..k]) && ValidDomain(s[k + 1..])
  }

  // The pattern read as a grammar: local "@" label "." ... label "." top.

  function Dotted(labels: seq<string>): string {
    if labels == [] then "" else labels[0] + "." + Dotted(labels[1..])
  }

  function DomainOf(labels: seq<string>, top: string): string {
    Dotted(labels) + top
  }

  function EmailOf(local: string, labels: seq<string>, top: string): string {
    local + "@" + DomainOf(labels, top)
  }

  predicate AllLabels(labels: seq<string>) {
    forall i :: 0 <= i < |labels| ==> IsLabel(labels[i])
  }

  ghost predicate MatchesEmailPattern(s: string) {
    exists local, labels, top ::
      EmailOf(local, labels, top) == s &&
      IsLocalPart(local) && |labels| > 0 && AllLabels(labels) && IsTopLabel(top)
  }

  /** Splitting `p + [c] + rest` at its first `c`, when `p` holds no `c`. */
  lemma SplitAtFirst(p: string, c: char, rest: string)
    requires forall i :: 0 <= i < |p| ==> p[i] != c
    ensures var s := p + [c] + rest;
            IndexOf(s, c) == |p| && s[..|p|] == p && s[|p| + 1..] == rest
  {
    var s := p + [c] + rest;
    var k := IndexOf(s, c);
    assert s[|p|] == c;
    assert forall i :: 0 <= i < |p| ==> s[i] == p[i];
    assert s[..|p|] == p;
    assert s[|p| + 1..] == rest;
  }

  lemma {:induction false} DomainOfFirstLabel(labels: seq<string>, top: string)
    requires |labels| > 0 && AllLabels(labels)
    ensures var d := DomainOf(labels, top);
            var k := IndexOf(d, '.');
            k == |labels[0]| && k < |d| && d[..k] == labels[0] && d[k + 1..] == DomainOf(labels[1..], top)
  {
    var l := labels[0];
    assert DomainOf(labels, top) == l + "." + DomainOf(labels[1..], top);
    assert IsLabel(l);
    SplitAtFirst(l, '.', DomainOf(labels[1..], top));
  }

  lemma {:induction false} LabelsMakeDomainTail(labels: seq<string>, top: string)
    requires AllLabels(labels) && IsTopLabel(top)
    ensures DomainTail(DomainOf(labels, top))
    decreases |labels|
  {
    if labels == [] {
      assert DomainOf(labels, top) == top;
    } else {
      DomainOfFirstLabel(labels, top);
      LabelsMakeDomainTail(labels[1..], top);
    }
  }

  lemma {:induction false} DomainTailHasLabels(t: string)
    requires DomainTail(t)
    ensures exists labels, top :: DomainOf(labels, top) == t && AllLabels(labels) && IsTopLabel(top)
    decreases |t|
  {
    if IsTopLabel(t) {
      assert DomainOf([], t) == t;
    } else {
      var k := IndexOf(t, '.');
      DomainTailHasLabels(t[k + 1..]);
      var labels, top :| DomainOf(labels, top) == t[k + 1..] && AllLabels(labels) && IsTopLabel(top);
      var all := [t[..k]] + labels;
      assert all[1..] == labels;
      assert DomainOf(all, top) == t[..k] + "." + DomainOf(labels, top);
      assert t == t[..k] + "." + t[k + 1..];
    }
  }

  /** The validator accepts exactly the strings the pattern describes. */
  lemma EmailValidatorMatchesPattern(s: string)
    ensures ValidEmail(s) <==> MatchesEmailPattern(s)
  {
    if ValidEmail(s) {
      var k := IndexOf(s, '@');
      var local, d := s[..k], s[k + 1..];
      var j := IndexOf(d, '.');
      DomainTailHasLabels(d[j + 1..]);
      var labels, top :| DomainOf(labels, top) == d[j + 1..] && AllLabels(labels) && IsTopLabel(top);
      var all := [d[..j]] + labels;
      assert all[1..] == labels;
      assert DomainOf(all, top) == d[..j] + "." + DomainOf(labels, top);
      assert d == d[..j] + "." + d[j + 1..];
      assert s == local + "@" + d;
      assert EmailOf(local, all, top) == s;
    }
    if MatchesEmailPattern(s) {
      var local, labels, top :| EmailOf(local, labels, top) == s &&
        IsLocalPart(local) && |labels| > 0 && AllLabels(labels) && IsTopLabel(top);
      SplitAtFirst(local, '@', DomainOf(labels, top));
      DomainOfFirstLabel(labels, top);
      LabelsMakeDomainTail(labels[1..], top);
    }
  }
}
