/**
 * The JavaScript and HTML string semantics the widget relies on: String.length
 * (UTF-16 code units), String.prototype.trim, substring containment, and the
 * browser's validity test for an `<input type="email" required>`.
 */
module Text {

  /** `s.length` in JavaScript: characters outside the Basic Multilingual Plane take two code units. */
  function Utf16Length(s: string): (n: nat)
    ensures |s| <= n <= 2 * |s|
  {
    if s == [] then 0
    else (if s[0] as int > 0xFFFF then 2 else 1) + Utf16Length(s[1..])
  }

  /** For text made only of BMP characters, the JavaScript length is the number of characters. */
  lemma {:induction false} Utf16LengthOfBmp(s: string)
    requires forall i :: 0 <= i < |s| ==> s[i] as int <= 0xFFFF
    ensures Utf16Length(s) == |s|
  {
    if s != [] {
      Utf16LengthOfBmp(s[1..]);
    }
  }

  /** The WhiteSpace and LineTerminator code points that `trim` removes. */
  predicate IsJsWhitespace(c: char)
  {
    || c == '\t' || c == '\n' || c == '\U{000B}' || c == '\U{000C}' || c == '\r' || c == ' '
    || c == '\U{00A0}' || c == '\U{1680}' || ('\U{2000}' <= c <= '\U{200A}')
    || c == '\U{2028}' || c == '\U{2029}' || c == '\U{202F}' || c == '\U{205F}'
    || c == '\U{3000}' || c == '\U{FEFF}'
  }

  /** Every character of `s` is whitespace (the empty text included). */
  predicate Blank(s: string)
  {
    forall i :: 0 <= i < |s| ==> IsJsWhitespace(s[i])
  }

  /** Leading whitespace removed (`TrimStartKeepsSuffix` says what is left). */
  function TrimStart(s: string): string
  {
    if s == [] || !IsJsWhitespace(s[0]) then s else TrimStart(s[1..])
  }

  /** Trailing whitespace removed (`TrimEndKeepsPrefix` says what is left). */
  function TrimEnd(s: string): string
  {
    if s == [] || !IsJsWhitespace(s[|s| - 1]) then s else TrimEnd(s[..|s| - 1])
  }

  /** What `TrimStart` leaves is the longest suffix of `s` that does not start with whitespace. */
  lemma {:induction false} TrimStartKeepsSuffix(s: string)
    ensures var r := TrimStart(s);
      && |r| <= |s| && r == s[|s| - |r|..]
      && (r == [] || !IsJsWhitespace(r[0]))
      && Blank(s[..|s| - |r|])
  {
    if s != [] && IsJsWhitespace(s[0]) {
      TrimStartKeepsSuffix(s[1..]);
      var r := TrimStart(s[1..]);
      assert s[1..][..|s| - 1 - |r|] == s[1..|s| - |r|];
    }
  }

  /** What `TrimEnd` leaves is the longest prefix of `s` that does not end with whitespace. */
  lemma {:induction false} TrimEndKeepsPrefix(s: string)
    ensures var r := TrimEnd(s);
      && |r| <= |s| && r == s[..|r|]
      && (r == [] || !IsJsWhitespace(r[|r| - 1]))
      && Blank(s[|r|..])
  {
    if s != [] && IsJsWhitespace(s[|s| - 1]) {
      var p := s[..|s| - 1];
      TrimEndKeepsPrefix(p);
      var r := TrimEnd(p);
      assert TrimEnd(s) == r;
      assert p[..|r|] == s[..|r|];
      assert p[|r|..] == s[|r|..|s| - 1];
      forall i | |r| <= i < |s| ensures IsJsWhitespace(s[i]) {
        if i < |s| - 1 {
          assert s[i] == p[|r|..][i - |r|];
        }
      }
    }
  }

  /** `s.trim()`. */
  function Trim(s: string): string
  {
    TrimEnd(TrimStart(s))
  }

  /** Removing trailing whitespace leaves nothing exactly when the text is all whitespace. */
  lemma TrimEndEmptyIffBlank(t: string)
    ensures TrimEnd(t) == [] <==> Blank(t)
  {
    TrimEndKeepsPrefix(t);
    var r := TrimEnd(t);
    if r != [] {
      assert r[|r| - 1] == t[|r| - 1];
    }
  }

  /** Removing leading whitespace leaves nothing exactly when the text is all whitespace. */
  lemma TrimStartEmptyIffBlank(s: string)
    ensures TrimStart(s) == [] <==> Blank(s)
  {
    TrimStartKeepsSuffix(s);
    var t := TrimStart(s);
    if t == [] {
      assert s[..|s| - |t|] == s;
    } else {
      assert t[0] == s[|s| - |t|];
    }
  }

  /** `!s.trim()` holds exactly for the texts made only of whitespace. */
  lemma TrimEmptyIffBlank(s: string)
    ensures Trim(s) == [] <==> Blank(s)
  {
    TrimEndEmptyIffBlank(TrimStart(s));
    TrimStartEmptyIffBlank(s);
    TrimStartKeepsSuffix(s);
  }

  /** `s` starts with `t` at index `i`. */
  predicate OccursAt(s: string, i: nat, t: string)
  {
    i + |t| <= |s| && s[i..i + |t|] == t
  }

  /** `s.includes(t)`. */
  predicate Contains(s: string, t: string)
  {
    exists i :: 0 <= i <= |s| && OccursAt(s, i, t)
  }

  /** Whatever is glued around `t`, the result still contains it, right after `a`. */
  lemma ContainsInfix(a: string, t: string, b: string)
    ensures OccursAt(a + t + b, |a|, t)
    ensures Contains(a + t + b, t)
  {
    assert (a + t + b)[|a|..|a| + |t|] == t;
    assert OccursAt(a + t + b, |a|, t);
  }

  /** Appending to a text keeps what it contains. */
  lemma ContainsExtended(s: string, t: string, c: string)
    requires Contains(s, t)
    ensures Contains(s + c, t)
  {
    var i :| 0 <= i <= |s| && OccursAt(s, i, t);
    assert (s + c)[i..i + |t|] == s[i..i + |t|];
    assert OccursAt(s + c, i, t);
  }

  // ---------------------------------------------------------------------------
  // <input type="email" required>: the browser only submits the form when the
  // value is a "valid e-mail address" of the HTML standard (section 4.10.5.1.5):
  //   1*( atext / "." ) "@" label *( "." label )

  predicate IsAsciiLetterOrDigit(c: char)
  {
    ('a' <= c <= 'z') || ('A' <= c <= 'Z') || ('0' <= c <= '9')
  }

  predicate IsAtext(c: char)
  {
    IsAsciiLetterOrDigit(c) || c in "!#$%&'*+-/=?^_`{|}~"
  }

  /** A domain label: 1 to 63 letters, digits or hyphens, starting and ending with a letter or digit. */
  predicate IsLabel(l: string)
  {
    && 1 <= |l| <= 63
    && IsAsciiLetterOrDigit(l[0]) && IsAsciiLetterOrDigit(l[|l| - 1])
    && forall i :: 0 <= i < |l| ==> IsAsciiLetterOrDigit(l[i]) || l[i] == '-'
  }

  /** Index of the first `c` in `s`, or `|s|` when there is none. */
  function IndexOf(s: string, c: char): (k: nat)
    ensures k <= |s|
    ensures k < |s| ==> s[k] == c
    ensures forall j :: 0 <= j < k ==> s[j] != c
  {
    if s == [] then 0
    else if s[0] == c then 0
    else 1 + IndexOf(s[1..], c)
  }

  /** One or more labels separated by dots. */
  predicate IsDomain(d: string)
    decreases |d|
  {
    var k := IndexOf(d, '.');
    IsLabel(d[..k]) && (k == |d| || IsDomain(d[k + 1..]))
  }

  predicate IsValidEmailAddress(e: string)
  {
    var k := IndexOf(e, '@');
    && 0 < k < |e|
    && (forall i :: 0 <= i < k ==> IsAtext(e[i]) || e[i] == '.')
    && IsDomain(e[k + 1..])
  }

  /** Every character a valid address may hold outside its domain part is printable ASCII, never whitespace. */
  lemma AtextIsNotWhitespace(c: char)
    requires IsAtext(c) || c == '.'
    ensures !IsJsWhitespace(c)
  {
  }

  /** A valid address is never blank and holds exactly one '@', the one that separates its two parts. */
  lemma ValidEmailAddressShape(e: string)
    requires IsValidEmailAddress(e)
    ensures e != [] && !Blank(e)
    ensures forall i :: 0 <= i < |e| && e[i] == '@' ==> i == IndexOf(e, '@')
  {
    var k := IndexOf(e, '@');
    AtextIsNotWhitespace(e[0]);
    forall i | 0 <= i < |e| && e[i] == '@' ensures i == k {
      if i > k {
        DomainHasNoAt(e[k + 1..], i - k - 1);
      }
    }
  }

  /** No '@' occurs in a domain. */
  lemma {:induction false} DomainHasNoAt(d: string, i: nat)
    requires IsDomain(d) && i < |d|
    ensures d[i] != '@'
    decreases |d|
  {
    var k := IndexOf(d, '.');
    if i < k {
      assert d[i] == d[..k][i];
    } else if i > k {
      assert d[i] == d[k + 1..][i - k - 1];
      DomainHasNoAt(d[k + 1..], i - k - 1);
    }
  }
}
