/**
 * The browser's own handling of an `<input type="email">` control, as the
 * HTML Living Standard defines its E-mail state: the value sanitization
 * applied to what the user types, and the "valid e-mail address" grammar.
 * A non-empty value outside that grammar is a type mismatch, and a form
 * without `novalidate` refuses to fire its submit event while one of its
 * controls suffers from a type mismatch.
 */
module EmailInput {

  /** The standard's ASCII whitespace: tab, line feed, form feed, carriage return, space. */
  predicate IsAsciiWhitespace(c: char) {
    c == '\t' || c == '\n' || c == '\U{000C}' || c == '\r' || c == ' '
  }

  predicate IsNewline(c: char) {
    c == '\n' || c == '\r'
  }

  /** The value with every line feed and carriage return removed. */
  function StripNewlines(s: string): (t: string)
    ensures forall i :: 0 <= i < |t| ==> !IsNewline(t[i])
    ensures |t| <= |s|
    ensures (forall i :: 0 <= i < |s| ==> !IsNewline(s[i])) ==> t == s
    // a single character is dropped exactly when it is a line break
    ensures |s| == 1 ==> t == (if IsNewline(s[0]) then [] else s)
    decreases |s|
  {
    if s == [] then []
    else if IsNewline(s[0]) then StripNewlines(s[1..])
    else [s[0]] + StripNewlines(s[1..])
  }

  /** Removal works piecewise: with the one-character case, this determines the result. */
  lemma {:induction false} StripNewlinesAppend(a: string, b: string)
    ensures StripNewlines(a + b) == StripNewlines(a) + StripNewlines(b)
    decreases |a|
  {
    if a == [] {
      assert a + b == b;
    } else {
      assert (a + b)[0] == a[0];
      assert (a + b)[1..] == a[1..] + b;
      StripNewlinesAppend(a[1..], b);
    }
  }

  /** The value without its leading ASCII whitespace. */
  function TrimStart(s: string): (t: string)
    ensures |t| <= |s| && t == s[|s| - |t|..]
    ensures t != [] ==> !IsAsciiWhitespace(t[0])
    ensures forall i :: 0 <= i < |s| - |t| ==> IsAsciiWhitespace(s[i])
    decreases |s|
  {
    if s != [] && IsAsciiWhitespace(s[0]) then TrimStart(s[1..]) else s
  }

  /** The value without its trailing ASCII whitespace. */
  function TrimEnd(s: string): (t: string)
    ensures |t| <= |s| && t == s[..|t|]
    ensures t != [] ==> !IsAsciiWhitespace(t[|t| - 1])
    ensures forall i :: |t| <= i < |s| ==> IsAsciiWhitespace(s[i])
    decreases |s|
  {
    if s != [] && IsAsciiWhitespace(s[|s| - 1]) then TrimEnd(s[..|s| - 1]) else s
  }

  /** `t` is a contiguous piece of `u` with nothing but ASCII whitespace cut from either end. */
  predicate WhitespaceInfix(t: string, u: string) {
    exists i, j ::
      && 0 <= i <= j <= |u| && t == u[i..j]
      && (forall k :: 0 <= k < i ==> IsAsciiWhitespace(u[k]))
      && (forall k :: j <= k < |u| ==> IsAsciiWhitespace(u[k]))
  }

  /** Trimming both ends cuts only whitespace. */
  lemma TrimInfix(u: string)
    ensures WhitespaceInfix(TrimEnd(TrimStart(u)), u)
  {
    var v := TrimStart(u);
    var w := TrimEnd(v);
    var i, j := |u| - |v|, |u| - |v| + |w|;
    assert w == u[i..j];
    forall k | j <= k < |u| ensures IsAsciiWhitespace(u[k]) {
      assert u[k] == v[k - i];
    }
  }

  /**
   * The value sanitization algorithm of the E-mail state without `multiple`:
   * line breaks removed, then the whitespace at both ends, and nothing else.
   */
  function Sanitize(s: string): (t: string)
    ensures forall i :: 0 <= i < |t| ==> !IsNewline(t[i])
    ensures t != [] ==> !IsAsciiWhitespace(t[0]) && !IsAsciiWhitespace(t[|t| - 1])
    ensures WhitespaceInfix(t, StripNewlines(s))
  {
    var u := StripNewlines(s);
    var v := TrimStart(u);
    var w := TrimEnd(v);
    NoNewlineSuffix(u, |u| - |v|);
    NoNewlinePrefix(v, |w|);
    TrimInfix(u);
    w
  }

  lemma NoNewlineSuffix(s: string, k: nat)
    requires k <= |s| && forall i :: 0 <= i < |s| ==> !IsNewline(s[i])
    ensures forall i :: 0 <= i < |s| - k ==> !IsNewline(s[k..][i])
  {
    forall i | 0 <= i < |s| - k ensures !IsNewline(s[k..][i]) {
      assert s[k..][i] == s[k + i];
    }
  }

  lemma NoNewlinePrefix(s: string, k: nat)
    requires k <= |s| && forall i :: 0 <= i < |s| ==> !IsNewline(s[i])
    ensures forall i :: 0 <= i < k ==> !IsNewline(s[..k][i])
  {
  }

  /** Sanitizing twice is sanitizing once: a value the user typed and the value read back agree. */
  lemma SanitizeIdempotent(s: string)
    ensures Sanitize(Sanitize(s)) == Sanitize(s)
  {
    var t := Sanitize(s);
    assert StripNewlines(t) == t;
    if t != [] {
      assert TrimStart(t) == t;
      assert TrimEnd(t) == t;
    }
  }

  /** Leading whitespace, a line break included, never reaches the value. */
  lemma SanitizeDropsLeadingWhitespace(c: char, s: string)
    requires IsAsciiWhitespace(c)
    ensures Sanitize([c] + s) == Sanitize(s)
  {
    var u := [c] + s;
    assert u[1..] == s;
    if !IsNewline(c) {
      var w := [c] + StripNewlines(s);
      assert StripNewlines(u) == w;
      assert w[1..] == StripNewlines(s);
      assert TrimStart(w) == TrimStart(StripNewlines(s));
    }
  }

  /** A value without line breaks or surrounding whitespace is kept as typed. */
  lemma SanitizeKeepsClean(s: string)
    requires forall i :: 0 <= i < |s| ==> !IsNewline(s[i])
    requires s != [] ==> !IsAsciiWhitespace(s[0]) && !IsAsciiWhitespace(s[|s| - 1])
    ensures Sanitize(s) == s
  {
    assert StripNewlines(s) == s;
    assert TrimStart(s) == s;
  }

  // ---------------------------------------------------------------------------
  // The valid e-mail address grammar
  // ---------------------------------------------------------------------------

  predicate IsLetDig(c: char) {
    ('a' <= c <= 'z') || ('A' <= c <= 'Z') || ('0' <= c <= '9')
  }

  /** The `atext` characters of RFC 5322 section 3.2.3. */
  predicate IsAtext(c: char) {
    || IsLetDig(c) || c == '!' || c == '#' || c == '$' || c == '%' || c == '&' || c == '\'' || c == '*'
    || c == '+' || c == '-' || c == '/' || c == '=' || c == '?' || c == '^' || c == '_' || c == '`'
    || c == '{' || c == '|' || c == '}' || c == '~'
  }

  /** Local part: one or more `atext` characters or dots. */
  predicate LocalOk(s: string) {
    |s| >= 1 && forall i :: 0 <= i < |s| ==> IsAtext(s[i]) || s[i] == '.'
  }

  /** A domain label: 1 to 63 letters, digits or hyphens, starting and ending with a letter or digit. */
  predicate LabelOk(l: string) {
    1 <= |l| <= 63 && IsLetDig(l[0]) && IsLetDig(l[|l| - 1])
    && forall i :: 0 <= i < |l| ==> IsLetDig(l[i]) || l[i] == '-'
  }

  /** The position of the first dot, or the length when there is none. */
  function FirstDot(d: string): (i: nat)
    ensures i <= |d|
    ensures forall j :: 0 <= j < i ==> d[j] != '.'
    ensures i < |d| ==> d[i] == '.'
    decreases |d|
  {
    if d == [] || d[0] == '.' then 0 else 1 + FirstDot(d[1..])
  }

  /** One or more labels separated by single dots. */
  predicate DomainOk(d: string)
    decreases |d|
  {
    var i := FirstDot(d);
    LabelOk(d[..i]) && (i < |d| ==> DomainOk(d[i + 1..]))
  }

  /** `s` read as a local part, the '@' at position `k`, and a domain. */
  predicate SplitAt(s: string, k: int) {
    0 <= k < |s| && s[k] == '@' && LocalOk(s[..k]) && DomainOk(s[k + 1..])
  }

  /** The standard's "valid e-mail address": a local part, an '@', and a domain. */
  function ValidEmailAddress(s: string): (ok: bool)
    ensures ok ==> 3 <= |s|
    ensures ok ==> (IsAtext(s[0]) || s[0] == '.') && (IsLetDig(s[|s| - 1]) || s[|s| - 1] == '-' || s[|s| - 1] == '.')
  {
    var ok := exists k | 0 <= k < |s| :: SplitAt(s, k);
    if ok then SplitEnds(s); true else false
  }

  lemma SplitEnds(s: string)
    requires exists k | 0 <= k < |s| :: SplitAt(s, k)
    ensures 3 <= |s|
    ensures (IsAtext(s[0]) || s[0] == '.') && (IsLetDig(s[|s| - 1]) || s[|s| - 1] == '-' || s[|s| - 1] == '.')
  {
    var k :| 0 <= k < |s| && SplitAt(s, k);
    var local, domain := s[..k], s[k + 1..];
    DomainChars(domain);
    assert s[0] == local[0];
    assert s[|s| - 1] == domain[|domain| - 1];
  }

  /** A control in the E-mail state suffers from a type mismatch unless its value is empty or a valid address. */
  function TypeMismatch(value: string): (m: bool)
    ensures !m <==> value == "" || ValidEmailAddress(value)
    // a value with no '@' at all is always refused
    ensures value != "" && '@' !in value ==> m
  {
    if value != "" && '@' !in value then
      NoAtInvalid(value);
      true
    else value != "" && !ValidEmailAddress(value)
  }

  lemma NoAtInvalid(s: string)
    requires '@' !in s
    ensures !ValidEmailAddress(s)
  {
    forall k | 0 <= k < |s| ensures s[k] != '@' {
      assert s[k] in s;
    }
  }

  /** A domain is non-empty and made of letters, digits, hyphens and dots only. */
  lemma {:induction false} DomainChars(d: string)
    requires DomainOk(d)
    ensures |d| >= 1
    ensures forall i :: 0 <= i < |d| ==> IsLetDig(d[i]) || d[i] == '-' || d[i] == '.'
    decreases |d|
  {
    var k := FirstDot(d);
    assert LabelOk(d[..k]);
    if k < |d| {
      var rest := d[k + 1..];
      DomainChars(rest);
      forall i | 0 <= i < |d| ensures IsLetDig(d[i]) || d[i] == '-' || d[i] == '.' {
        if i < k {
          assert d[i] == d[..k][i];
        } else if i > k {
          assert d[i] == rest[i - k - 1];
        }
      }
    } else {
      forall i | 0 <= i < |d| ensures IsLetDig(d[i]) || d[i] == '-' || d[i] == '.' {
        assert d[i] == d[..k][i];
      }
    }
  }

  /**
   * A valid address has exactly one '@', neither first nor last, and every
   * other character is `atext` or a dot.
   */
  lemma ValidAddressShape(s: string)
    requires ValidEmailAddress(s)
    ensures exists k | 1 <= k < |s| - 1 :: s[k] == '@'
    ensures forall i, j :: 0 <= i < j < |s| && s[i] == '@' ==> s[j] != '@'
    ensures forall i :: 0 <= i < |s| ==> s[i] == '@' || IsAtext(s[i]) || s[i] == '.'
  {
    var k :| 0 <= k < |s| && SplitAt(s, k);
    var local, domain := s[..k], s[k + 1..];
    DomainChars(domain);
    forall i | 0 <= i < |s| ensures (s[i] == '@' <==> i == k) && (s[i] == '@' || IsAtext(s[i]) || s[i] == '.') {
      if i < k {
        assert s[i] == local[i];
      } else if i > k {
        assert s[i] == domain[i - k - 1];
      }
    }
  }

  /** A domain starts with a letter or a digit. */
  lemma DomainStart(d: string)
    requires |d| > 0 && !IsLetDig(d[0])
    ensures !DomainOk(d)
  {
    var i := FirstDot(d);
    if i > 0 {
      assert d[..i][0] == d[0];
    }
  }

  /** A valid address is kept as typed: it has no line break and no surrounding whitespace. */
  lemma ValidAddressClean(s: string)
    requires ValidEmailAddress(s)
    ensures Sanitize(s) == s
  {
    ValidAddressShape(s);
    forall i | 0 <= i < |s| ensures !IsNewline(s[i]) && !IsAsciiWhitespace(s[i]) {
      AddressCharPrintable(s[i]);
    }
    SanitizeKeepsClean(s);
  }

  lemma AddressCharPrintable(c: char)
    requires c == '@' || IsAtext(c) || c == '.'
    ensures '!' <= c <= '~'
  {
  }

  /** `a@@b`: the second '@' can be in neither part. */
  lemma DoubleAtMismatch()
    ensures TypeMismatch("a@@b")
  {
    var s := "a@@b";
    forall k | 0 <= k < |s| ensures !SplitAt(s, k) {
      if k == 1 {
        assert s[2..][0] == '@';
        DomainStart(s[2..]);
      } else if k == 2 {
        assert s[..2][1] == '@';
      }
    }
  }

  lemma ShortAddressValid()
    ensures ValidEmailAddress("a@b")
  {
    var s := "a@b";
    assert s[1] == '@';
    assert s[..1] == "a" && s[2..] == "b";
    assert FirstDot("b") == 1;
    assert DomainOk("b");
    assert SplitAt(s, 1);
  }
}
