/** Strings as the request sanitisers and the store see them: JavaScript
    whitespace and trimming, ASCII case folding (the part of the
    `{ locale: "en", strength: 2 }` collation this model keeps),
    `isAlphanumeric`, the HTML-entity `escape()` sanitiser and the binary
    order MongoDB sorts strings by. */
module Text {

  /** A character matched by `\s` in a JavaScript regular expression. */
  predicate IsSpace(c: char) {
    c == ' ' || c == '\t' || c == '\n' || c == '\r' || c == '\U{000B}' || c == '\U{000C}'
    || c == '\U{00A0}' || c == '\U{1680}' || ('\U{2000}' <= c <= '\U{200A}')
    || c == '\U{2028}' || c == '\U{2029}' || c == '\U{202F}' || c == '\U{205F}'
    || c == '\U{3000}' || c == '\U{FEFF}'
  }

  /** Number of whitespace characters at the start of `s`. */
  function LeadingSpace(s: string): (k: nat)
    ensures k <= |s|
    ensures forall i :: 0 <= i < k ==> IsSpace(s[i])
    ensures k < |s| ==> !IsSpace(s[k])
  {
    if s == [] || !IsSpace(s[0]) then 0 else 1 + LeadingSpace(s[1..])
  }

  /** Number of whitespace characters at the end of `s`. */
  function TrailingSpace(s: string): (k: nat)
    ensures k <= |s|
    ensures forall i :: |s| - k <= i < |s| ==> IsSpace(s[i])
    ensures k < |s| ==> !IsSpace(s[|s| - k - 1])
  {
    if s == [] || !IsSpace(s[|s| - 1]) then 0 else 1 + TrailingSpace(s[..|s| - 1])
  }

  /** The `trim()` sanitiser: strip trailing, then leading whitespace. */
  function Trim(s: string): (r: string)
    ensures |r| <= |s|
    ensures r == [] || (!IsSpace(r[0]) && !IsSpace(r[|r| - 1]))
    ensures exists i, j :: 0 <= i <= j <= |s| && r == s[i..j]
                           && (forall k :: 0 <= k < i ==> IsSpace(s[k]))
                           && (forall k :: j <= k < |s| ==> IsSpace(s[k]))
  {
    var e := |s| - TrailingSpace(s);
    var t := s[..e];
    var b := LeadingSpace(t);
    assert t[b..] == s[b..e];
    t[b..]
  }

  /** Trimming a trimmed string changes nothing. */
  lemma TrimIdempotent(s: string)
    ensures Trim(Trim(s)) == Trim(s)
  {
    var t := Trim(s);
    if t != [] {
      assert TrailingSpace(t) == 0;
      assert t[..|t|] == t;
      assert LeadingSpace(t) == 0;
    }
  }

  /** A string that neither starts nor ends with whitespace trims to itself. */
  lemma TrimUnspaced(s: string)
    requires s == [] || (!IsSpace(s[0]) && !IsSpace(s[|s| - 1]))
    ensures Trim(s) == s
  {
    if s != [] {
      assert TrailingSpace(s) == 0;
      assert s[..|s|] == s;
    }
  }

  /** Lower-case an ASCII letter; every other character is unchanged. */
  function LowerAscii(c: char): char {
    if 'A' <= c <= 'Z' then (c as int + 32) as char else c
  }

  function Fold(s: string): string {
    seq(|s|, i requires 0 <= i < |s| => LowerAscii(s[i]))
  }

  /** Equality under the genre collation, as far as this model keeps it:
      letters compare without regard to ASCII case. */
  predicate SameIgnoringCase(a: string, b: string) {
    Fold(a) == Fold(b)
  }

  predicate IsAlnumChar(c: char) {
    ('0' <= c <= '9') || ('A' <= c <= 'Z') || ('a' <= c <= 'z')
  }

  predicate AllAlnum(s: string) {
    forall i :: 0 <= i < |s| ==> IsAlnumChar(s[i])
  }

  /** validator's `isAlphanumeric()` with its default locale: one or more
      ASCII letters or digits and nothing else. */
  predicate IsAlphanumeric(s: string) {
    |s| > 0 && AllAlnum(s)
  }

  /** validator's `escape()`, one character at a time. */
  function EscapeChar(c: char): string {
    if c == '&' then "&amp;"
    else if c == '"' then "&quot;"
    else if c == '\'' then "&#x27;"
    else if c == '<' then "&lt;"
    else if c == '>' then "&gt;"
    else if c == '/' then "&#x2F;"
    else if c == '\\' then "&#x5C;"
    else if c == '`' then "&#96;"
    else [c]
  }

  /** The `escape()` sanitiser: replace the HTML-significant characters by entities. */
  function Escape(s: string): string {
    if s == [] then [] else EscapeChar(s[0]) + Escape(s[1..])
  }

  lemma AllAlnumAppend(a: string, b: string)
    ensures AllAlnum(a + b) <==> AllAlnum(a) && AllAlnum(b)
  {
    if AllAlnum(a) && AllAlnum(b) {
      forall i | 0 <= i < |a + b| ensures IsAlnumChar((a + b)[i]) {
        if i >= |a| { assert (a + b)[i] == b[i - |a|]; }
      }
    }
    if AllAlnum(a + b) {
      forall i | 0 <= i < |a| ensures IsAlnumChar(a[i]) { assert (a + b)[i] == a[i]; }
      forall i | 0 <= i < |b| ensures IsAlnumChar(b[i]) { assert (a + b)[|a| + i] == b[i]; }
    }
  }

  /** Escaping never shortens a string, keeps it empty exactly when it was
      empty, and leaves letters and digits alone; so a string is
      alphanumeric after `escape()` exactly when it was before, which is
      why checking `isAlphanumeric` after escaping rejects the same names. */
  lemma {:induction false} EscapeFacts(s: string)
    ensures |Escape(s)| >= |s|
    ensures Escape(s) == [] <==> s == []
    ensures AllAlnum(Escape(s)) <==> AllAlnum(s)
    ensures AllAlnum(s) ==> Escape(s) == s
  {
    if s != [] {
      EscapeFacts(s[1..]);
      var h := EscapeChar(s[0]);
      assert Escape(s) == h + Escape(s[1..]);
      AllAlnumAppend(h, Escape(s[1..]));
      assert s == [s[0]] + s[1..];
      AllAlnumAppend([s[0]], s[1..]);
      assert h != [] && (IsAlnumChar(s[0]) ==> h == [s[0]]) && (IsAlnumChar(h[0]) ==> IsAlnumChar(s[0]));
    }
  }

  lemma FoldAppend(a: string, b: string)
    ensures Fold(a + b) == Fold(a) + Fold(b)
  {
  }

  /** Two characters that agree up to case escape to strings that agree up to case. */
  lemma EscapeCharKeepsCaseMatch(c: char, d: char)
    requires LowerAscii(c) == LowerAscii(d)
    ensures Fold(EscapeChar(c)) == Fold(EscapeChar(d))
  {
    if ('A' <= c <= 'Z') || ('a' <= c <= 'z') {
      assert EscapeChar(c) == [c] && EscapeChar(d) == [d];
    } else {
      assert c == d;
    }
  }

  /** Two names that agree up to case still agree up to case once escaped:
      escaping touches no letter, and non-letters agree exactly. */
  lemma {:induction false} EscapeKeepsCaseMatch(a: string, b: string)
    requires SameIgnoringCase(a, b)
    ensures SameIgnoringCase(Escape(a), Escape(b))
  {
    assert |a| == |Fold(a)| == |Fold(b)| == |b|;
    if a != [] {
      assert Fold(a)[0] == Fold(b)[0];
      assert Fold(a[1..]) == Fold(a)[1..] && Fold(b[1..]) == Fold(b)[1..];
      EscapeKeepsCaseMatch(a[1..], b[1..]);
      EscapeCharKeepsCaseMatch(a[0], b[0]);
      FoldAppend(EscapeChar(a[0]), Escape(a[1..]));
      FoldAppend(EscapeChar(b[0]), Escape(b[1..]));
    }
  }

  /** `c` and `d` are the same ASCII letter in different case. */
  predicate CaseVariants(c: char, d: char) {
    || ('A' <= c <= 'Z' && d as int == c as int + 32)
    || ('A' <= d <= 'Z' && c as int == d as int + 32)
  }

  /** Two strings agree up to case exactly when they have the same length
      and, position by position, hold the same character or the same
      ASCII letter in the other case. */
  lemma SameIgnoringCaseMeans(a: string, b: string)
    ensures SameIgnoringCase(a, b) <==>
              |a| == |b| && forall i :: 0 <= i < |a| ==> a[i] == b[i] || CaseVariants(a[i], b[i])
  {
    if SameIgnoringCase(a, b) {
      assert |a| == |Fold(a)| == |Fold(b)| == |b|;
      forall i | 0 <= i < |a| ensures a[i] == b[i] || CaseVariants(a[i], b[i]) {
        assert Fold(a)[i] == Fold(b)[i];
      }
    }
    if |a| == |b| && forall i :: 0 <= i < |a| ==> a[i] == b[i] || CaseVariants(a[i], b[i]) {
      forall i | 0 <= i < |a| ensures Fold(a)[i] == Fold(b)[i] {
        assert a[i] == b[i] || CaseVariants(a[i], b[i]);
      }
    }
  }

  /** The characters `escape()` replaces. */
  predicate IsMarkup(c: char) {
    c == '&' || c == '"' || c == '\'' || c == '<' || c == '>' || c == '/' || c == '\\' || c == '`'
  }

  /** An escaped string holds no character that HTML treats as markup
      other than the `&` that starts each entity, and every `&` in it
      starts one. */
  lemma {:induction false} EscapeLeavesNoMarkup(s: string)
    ensures forall i :: 0 <= i < |Escape(s)| ==> Escape(s)[i] == '&' || !IsMarkup(Escape(s)[i])
    ensures forall c :: c in s && IsMarkup(c) ==> '&' in Escape(s)
  {
    if s != [] {
      EscapeLeavesNoMarkup(s[1..]);
      var h := EscapeChar(s[0]);
      var t := Escape(s[1..]);
      assert Escape(s) == h + t;
      forall i | 0 <= i < |h + t| ensures (h + t)[i] == '&' || !IsMarkup((h + t)[i]) {
        if i >= |h| { assert (h + t)[i] == t[i - |h|]; }
      }
      assert IsMarkup(s[0]) ==> (h + t)[0] == '&';
      forall c | c in s && IsMarkup(c) ensures '&' in h + t {
        if c != s[0] { assert c in s[1..]; assert '&' in t; var k :| 0 <= k < |t| && t[k] == '&'; assert (h + t)[|h| + k] == '&'; }
      }
    }
  }

  /** A string `isAlphanumeric` accepts comes through `trim()` and
      `escape()` unchanged. */
  lemma AlphanumericSanitised(s: string)
    requires IsAlphanumeric(s)
    ensures Trim(s) == s && Escape(s) == s
  {
    assert IsAlnumChar(s[0]) && IsAlnumChar(s[|s| - 1]);
    TrimUnspaced(s);
    EscapeFacts(s);
  }

  /** The order `sort({ field: 1 })` puts strings in without a collation:
      code point by code point, a proper prefix first. */
  predicate LexLe(a: string, b: string) {
    a == [] || (b != [] && (a[0] < b[0] || (a[0] == b[0] && LexLe(a[1..], b[1..]))))
  }

  lemma {:induction false} LexLeReflexive(a: string)
    ensures LexLe(a, a)
  {
    if a != [] {
      LexLeReflexive(a[1..]);
    }
  }

  lemma {:induction false} LexLeTotal(a: string, b: string)
    ensures LexLe(a, b) || LexLe(b, a)
  {
    if a != [] && b != [] && a[0] == b[0] {
      LexLeTotal(a[1..], b[1..]);
    }
  }

  lemma {:induction false} LexLeTransitive(a: string, b: string, c: string)
    requires LexLe(a, b) && LexLe(b, c)
    ensures LexLe(a, c)
  {
    if a != [] && a[0] == b[0] && b[0] == c[0] {
      LexLeTransitive(a[1..], b[1..], c[1..]);
    }
  }

  lemma {:induction false} LexLeAntisymmetric(a: string, b: string)
    requires LexLe(a, b) && LexLe(b, a)
    ensures a == b
  {
    if a != [] {
      LexLeAntisymmetric(a[1..], b[1..]);
      assert a == [a[0]] + a[1..] && b == [b[0]] + b[1..];
    }
  }
}
